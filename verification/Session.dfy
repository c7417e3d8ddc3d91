/**
 * roml-highs/src/session.rs: a session that is synchronized by rebuilds and deltas, and that lays
 * temporary overlays over the synchronized model and rolls them back.
 */
module Sessions {
  import opened Common
  import opened BackendIr
  import opened Highs
  import opened IndexMaps
  import opened CompiledModels
  import opened NativeViews
  import opened Caching
  import opened Representing
  import opened SnapshotModels
  import opened Projecting
  import opened Overlaying
  import opened Rollbacks
  import opened Meanings

  /** `AdapterHealth`. */
  datatype Health = Ready | NeedsRebuild | Broken

  datatype Receipt = Receipt(overlay: OverlayId, base: CompilationId, applied: CompilationId)

  /** What a rollback reports; the first alternative is the source's `Err`. */
  datatype Outcome = NothingApplied | Uncertain(cause: Cause) | Clean(restored: CompilationId)

  /** The overlaid model and its numbering while an overlay is applied. */
  datatype Overlay = Overlay(
    model: Model, lay: Layout, rows: map<RowId, int>, temporaries: map<ObjectiveId, CompiledObjective>)

  /** The base state captured at apply, which the verification compares with. */
  ghost predicate Captured(record: OverlayRecord, m: Model, lay: Layout, inf: real) {
    && record.priorPolicy == m.policy
    && record.baseRowCount == |lay.rows| && record.baseColCount == |lay.cols|
    && record.baseVarBounds == VarBoundsOf(m.variables, inf) && record.baseRowBounds == RowBoundsOf(m.rows, inf)
    && record.baseActive == ActiveUser(m)
  }

  /** The loop state `s` shows overlay `l` on top of base model `m`. */
  ghost predicate Laying(s: Overlaid, l: Overlay, m: Model, lay: Layout, inf: real) {
    && s.temporaries == l.temporaries
    && Compounds(s, l.model, m, l.lay, lay, l.rows, inf)
    && ReferencesResolve(l.model)
    && Captured(s.record, m, lay, inf)
  }

  lemma OverlayBegins(h: Held, m: Model, lay: Layout, inf: real, o: CompiledOverlay)
    requires Represents(h, m, lay, inf)
    ensures Laying(Overlaid(h, EmptyRecord(o, h, m.policy), map[], m.policy), Overlay(m, lay, h.rowMap, map[]), m,
        lay, inf)
  {
    OverlayStarts(h, m, lay, inf, o);
    RepresentsMeasures(h, m, lay, inf);
    hide Compounds, Represents, Numbers, CachesOf;
    assert h.caches.active == ActiveUser(m) && h.caches.varBounds == VarBoundsOf(m.variables, inf) by {
      assert CachesOf(m, inf) == h.caches;
    }
  }

  ghost function Next(
      s: Overlaid, l: Overlay, op: OverlayOp, temporaries: map<ObjectiveId, CompiledObjective>): Overlay {
    Overlay(Laid(l.model, op), OverlayLayout(l.lay, op), OverlayRows(s, l.rows, op), temporaries)
  }

  /** The op passed the preflight check, the loop serves it and the native surface can show it. */
  predicate Appliable(op: OverlayOp, baseRows: set<RowId>, temporaries: set<ObjectiveId>) {
    Served(op, baseRows, temporaries) && OverlayRepresentable(op)
  }

  predicate AllAppliable(ops: seq<OverlayOp>, baseRows: set<RowId>, temporaries: set<ObjectiveId>) {
    |ops| == 0
    || (&& Appliable(ops[0], baseRows, temporaries)
        && AllAppliable(ops[1..], baseRows, TemporariesAfter(ops[0], temporaries)))
  }

  /** An overlay that applies to `m` unless a native call fails. */
  predicate Accepts(o: CompiledOverlay, m: Model) {
    OverlayValid(o, RegistryOf(m)) && AllAppliable(o.operations, m.rows.Keys, {})
  }

  lemma CapturedIsKept(s: Overlaid, op: OverlayOp, m: Model, lay: Layout, inf: real)
    requires Captured(s.record, m, lay, inf) && OverlaidBy(s, op, inf).Some?
    ensures Captured(OverlaidBy(s, op, inf).value.record, m, lay, inf)
    ensures OverlaidBy(s, op, inf).value.temporaries.Keys == TemporariesAfter(op, s.temporaries.Keys)
    ensures
      var r, r' := s.record, OverlaidBy(s, op, inf).value.record;
      r.overlay == r'.overlay && r.base == r'.base && r.applied == r'.applied
  {
  }

  /** One applicable op takes the loop state to one that shows the next overlaid model. */
  lemma OverlayGoesOn(
      s: Overlaid, l: Overlay, m: Model, lay: Layout, inf: real, op: OverlayOp, overlay: OverlayId, origins: Origins)
    requires Laying(s, l, m, lay, inf) && OverlayOpValid(op, RegistryOf(l.model), overlay, origins)
    requires Appliable(op, m.rows.Keys, s.temporaries.Keys)
    ensures
      var s' := OverlaidBy(s, op, inf);
      s'.Some? && Laying(s'.value, Next(s, l, op, s'.value.temporaries), m, lay, inf)
  {
    hide Compounds, Captured, OverlaidBy, ReferencesResolve, RegistryOf, OverlayOpValid;
    OverlayOpLays(s, l.model, m, l.lay, lay, l.rows, inf, op, overlay, origins);
    LaidKeepsReferences(l.model, op, overlay, origins);
    CapturedIsKept(s, op, m, lay, inf);
  }

  lemma LayingMeasures(s: Overlaid, l: Overlay, m: Model, lay: Layout, inf: real)
    requires Laying(s, l, m, lay, inf)
    ensures SoundColumns(s.held) && OneToOne(s.held.rowMap)
  {
    hide Alters, Solved, Cached, WellFormed, Captured, ReferencesResolve, Shows;
    CompoundsMeasures(s, l.model, m, l.lay, lay, l.rows, inf);
    NumbersIsBijection(s.held.colMap, l.lay.cols);
    NumbersIsBijection(s.held.rowMap, lay.rows);
  }

  lemma LayingUnserved(s: Overlaid, l: Overlay, m: Model, lay: Layout, inf: real, op: OverlayOp)
    requires Laying(s, l, m, lay, inf) && !Served(op, m.rows.Keys, s.temporaries.Keys)
    ensures OverlaidBy(s, op, inf) == None
  {
    hide Compounds, Captured, ReferencesResolve, OverlaidBy, Served;
    UnservedIsMissing(s, l.model, m, l.lay, lay, l.rows, inf, op);
  }

  predicate SameOverlay(a: OverlayRecord, b: OverlayRecord) {
    a.overlay == b.overlay && a.base == b.base && a.applied == b.applied
  }

  /** `s'` and `l'` are what the loop makes of `s` and `l` by one op. */
  ghost predicate Steps(
      s: Overlaid, l: Overlay, m: Model, lay: Layout, inf: real, op: OverlayOp, s': Overlaid, l': Overlay)
  {
    && Laying(s', l', m, lay, inf) && l'.model == Laid(l.model, op)
    && s'.temporaries.Keys == TemporariesAfter(op, s.temporaries.Keys)
    && s'.held.native.sense == SenseShown(op, l.model, s.held.native.sense)
    && SameOverlay(s.record, s'.record)
  }

  lemma LayingShowsSense(
      s: Overlaid, l: Overlay, m: Model, lay: Layout, inf: real, op: OverlayOp, overlay: OverlayId, origins: Origins)
    requires Laying(s, l, m, lay, inf) && OverlayOpValid(op, RegistryOf(l.model), overlay, origins)
    requires OverlaidBy(s, op, inf).Some?
    ensures OverlaidBy(s, op, inf).value.held.native.sense == SenseShown(op, l.model, s.held.native.sense)
  {
    hide Compounds, Captured, OverlaidBy, ReferencesResolve, SenseShown;
    OpShowsSense(s, l.model, m, l.lay, lay, l.rows, inf, op);
  }

  lemma StoppedIsNotRepresentable(s: Overlaid, op: OverlayOp, inf: real)
    ensures OverlaidBy(s, op, inf).Some? ==> OverlayRepresentable(op)
  {
  }

  /** On a loop state that shows an overlaid model, an op goes through exactly when it is applicable. */
  lemma OverlaySteps(
      s: Overlaid, l: Overlay, m: Model, lay: Layout, inf: real, op: OverlayOp, overlay: OverlayId, origins: Origins)
    requires Laying(s, l, m, lay, inf) && OverlayOpValid(op, RegistryOf(l.model), overlay, origins)
    ensures
      var s' := OverlaidBy(s, op, inf);
      && (s'.Some? <==> Appliable(op, m.rows.Keys, s.temporaries.Keys))
      && (s'.Some? ==> Steps(s, l, m, lay, inf, op, s'.value, Next(s, l, op, s'.value.temporaries)))
  {
    hide Laying, Captured, OverlaidBy, Served, OverlayOpValid, OverlayRepresentable, Laid;
    LayingCaptured(s, l, m, lay, inf);
    StoppedIsNotRepresentable(s, op, inf);
    if !Served(op, m.rows.Keys, s.temporaries.Keys) {
      LayingUnserved(s, l, m, lay, inf, op);
    } else if OverlayRepresentable(op) {
      OverlayGoesOn(s, l, m, lay, inf, op, overlay, origins);
      LayingShowsSense(s, l, m, lay, inf, op, overlay, origins);
      CapturedIsKept(s, op, m, lay, inf);
    }
  }

  /** A whole overlay goes through exactly when every op is applicable in turn, and then shows the overlaid model. */
  lemma {:induction false} OverlayLays(
      s: Overlaid, l: Overlay, m: Model, lay: Layout, inf: real, ops: seq<OverlayOp>, overlay: OverlayId,
      origins: Origins)
    returns (l': Overlay)
    requires Laying(s, l, m, lay, inf) && OverlayOpsValid(ops, RegistryOf(l.model), overlay, origins)
    ensures
      var s' := OverlaidAll(s, ops, inf);
      && (s'.Some? <==> AllAppliable(ops, m.rows.Keys, s.temporaries.Keys))
      && (s'.Some? ==>
            && Laying(s'.value, l', m, lay, inf) && l'.model == LaidAll(l.model, ops)
            && s'.value.held.native.sense == SensesShown(ops, l.model, s.held.native.sense)
            && SameOverlay(s.record, s'.value.record))
    decreases |ops|
  {
    hide Laying, OverlaidBy, OverlayOpValid, Appliable, RegistryOf, OverlayRegistered, Laid, TemporariesAfter,
      SenseShown, Next;
    l' := l;
    if |ops| != 0 {
      OverlaySteps(s, l, m, lay, inf, ops[0], overlay, origins);
      var s' := OverlaidBy(s, ops[0], inf);
      if s'.Some? {
        LaidRegisters(l.model, ops[0], overlay, origins);
        l' := OverlayLays(
          s'.value, Next(s, l, ops[0], s'.value.temporaries), m, lay, inf, ops[1..], overlay, origins);
      }
    }
  }

  lemma LayingCaptured(s: Overlaid, l: Overlay, m: Model, lay: Layout, inf: real)
    requires Laying(s, l, m, lay, inf)
    ensures Captured(s.record, m, lay, inf)
  {
  }

  /** Two states are equal except for the native sense, which may differ while no objective is active. */
  predicate Restored(before: Held, after: Held) {
    && after == before.(native := before.native.(sense := after.native.sense))
    && (before.caches.active.Some? ==> after == before)
  }

  /** The seven comparisons of the verification. */
  predicate LooksLike(record: OverlayRecord, current: Option<CompilationId>, h: Held, policy: Policy) {
    && current == Some(record.base)
    && |h.native.rows| == record.baseRowCount && |h.native.cols| == record.baseColCount
    && h.caches.varBounds == record.baseVarBounds && h.caches.rowBounds == record.baseRowBounds
    && h.caches.active == record.baseActive && policy == record.priorPolicy
  }

  /** Any state that represents the captured base passes the verification. */
  lemma CapturedLooksClean(record: OverlayRecord, h: Held, m: Model, lay: Layout, inf: real, policy: Policy)
    requires Represents(h, m, lay, inf) && Captured(record, m, lay, inf) && policy == m.policy
    ensures LooksLike(record, Some(record.base), h, policy)
  {
    hide Represents;
    RepresentsMeasures(h, m, lay, inf);
  }

  /** Captured bounds and active objective that are held again: the frame of the base. */
  lemma LooksLikeFrame(
      record: OverlayRecord, h: Held, n: Model, lay: Layout, m: Model, lay0: Layout, inf: real)
    requires Represents(h, n, lay, inf) && Captured(record, m, lay0, inf)
    requires h.caches.varBounds == record.baseVarBounds && h.caches.rowBounds == record.baseRowBounds
    requires h.caches.active == record.baseActive && n.policy == record.priorPolicy
    ensures SameFrame(n, m, inf)
  {
    hide Represents, VarBoundsOf, RowBoundsOf, SameFrame;
    RepresentsMeasures(h, n, lay, inf);
    CachesGiveFrame(n, m, inf);
  }

  lemma IdleHasNoPolicy(h: Held, m: Model, lay: Layout, inf: real)
    requires Represents(h, m, lay, inf)
    ensures h.caches.active == ActiveUser(m) && (h.caches.active.None? ==> !m.policy.Single?)
  {
    hide Shows;
  }

  /** One numbering and one model leave no freedom: index maps, native model and caches are fixed. */
  lemma SameNumberingIsRestored(a: Held, b: Held, m: Model, lay: Layout, inf: real)
    requires Represents(a, m, lay, inf) && Represents(b, m, lay, inf)
    ensures Restored(a, b)
  {
    SameNumbers(a.colMap, b.colMap, lay.cols);
    SameNumbers(a.rowMap, b.rowMap, lay.rows);
    SurfaceIsActive(m);
  }

  lemma SameNumbers<Id(!new)>(a: map<Id, int>, b: map<Id, int>, order: seq<Id>)
    requires Numbers(a, order) && Numbers(b, order)
    ensures a == b
  {
    NumbersIsBijection(a, order);
    NumbersIsBijection(b, order);
  }

  /** The guards of `synchronize` on a compiled delta. They look at ids and revisions only. */
  predicate DeltaAccepted(current: Option<CompilationId>, revision: Revision, present: Registry, b: BackendDelta) {
    current == Some(b.fromCompilation) && revision == b.fromRevision && DeltaValid(b, present)
  }

  /** The preflight check lets through an overlay that bounds its own temporary row; the loop then stops. */
  lemma PreflightIsWeakerThanTheLoop(m: Model, overlay: OverlayId, id: RowId, b: Bounds)
    requires id !in m.rows
    ensures
      var row := CompiledRow(id, b, []);
      var origins := Origins(map[], map[id := FromOverlay(overlay, OtherRole)], map[]);
      var ops := [AddTemporaryRow(row), SetTemporaryRowBounds(id, b)];
      OverlayOpsValid(ops, RegistryOf(m), overlay, origins) && !AllAppliable(ops, m.rows.Keys, {})
  {
    var ops := [AddTemporaryRow(CompiledRow(id, b, [])), SetTemporaryRowBounds(id, b)];
    assert ops[1..] == [SetTemporaryRowBounds(id, b)];
    assert ops[1..][1..] == [];
  }

  /** The same for a coefficient of a persistent objective. */
  lemma PreflightAcceptsPersistentCosts(m: Model, overlay: OverlayId, o: ObjectiveId, v: VariableId, x: real)
    requires o in m.objectives && v in m.variables
    ensures
      var ops := [SetTemporaryObjectiveCoefficient(o, v, x)];
      OverlayOpsValid(ops, RegistryOf(m), overlay, Origins(map[], map[], map[])) && !AllAppliable(ops, m.rows.Keys, {})
  {
    var ops, none := [SetTemporaryObjectiveCoefficient(o, v, x)], Origins(map[], map[], map[]);
    assert ops[1..] == [];
    assert OverlayOpsValid(ops[1..], OverlayRegistered(ops[0], RegistryOf(m)), overlay, none);
  }

  /** What is held shows the overlaid model `om`; the session keeps no index of temporary rows. */
  ghost predicate ShowsOverlaid(h: Held, om: Model, inf: real) {
    exists lay, rows :: Shows(h.(rowMap := rows), OverlayView(om), lay, inf)
  }

  /**
   * After a delta issued for `m` ended in `st`, an overlay of `m` that passes the preflight check on what is held,
   * and whose native calls succeed, shows the overlaid model.
   */
  ghost predicate NextOverlayShows(
      st: Status, h: Held, m: Model, lay: Layout, failed: seq<BackendOp>, failedOrigins: Origins, h': Held,
      o: CompiledOverlay, inf: real)
  {
    && Represents(h, m, lay, inf)
    && (st == NATIVE_FAILURE ==> Issuable(m, failed, failedOrigins))
    && Leaves(st, h, failed, failedOrigins, inf, h')
    && OverlayValid(o, HeldRegistry(h')) && Accepts(o, m)
    ==>
    var s' := OverlaidAll(Overlaid(h', EmptyRecord(o, h', m.policy), map[], m.policy), o.operations, inf);
    s'.Some? ==> ShowsOverlaid(s'.value.held, LaidAll(m, o.operations), inf)
  }

  /** The guards of an overlay do not look at what is held either: the same condition decides. */
  lemma NextOverlayIsSafeExactlyAfterARefusal(st: Status, inf: real)
    requires st.Failed?
    ensures (forall h, m, lay, failed, failedOrigins, h', o ::
               NextOverlayShows(st, h, m, lay, failed, failedOrigins, h', o, inf)) <==> st != NATIVE_FAILURE
  {
    if st == NATIVE_FAILURE {
      NextOverlayMisses(inf);
    } else {
      forall h, m, lay, failed, failedOrigins, h', o
        ensures NextOverlayShows(st, h, m, lay, failed, failedOrigins, h', o, inf)
      {
        NextOverlayLands(st, h, m, lay, failed, failedOrigins, h', o, inf);
      }
    }
  }

  lemma NextOverlayLands(
      st: Status, h: Held, m: Model, lay: Layout, failed: seq<BackendOp>, failedOrigins: Origins, h': Held,
      o: CompiledOverlay, inf: real)
    requires st != NATIVE_FAILURE
    ensures NextOverlayShows(st, h, m, lay, failed, failedOrigins, h', o, inf)
  {
    hide Represents, Issuable, OverlaidAll, LaidAll, OverlayOpsValid, AllAppliable, Laying, RegistryOf, HeldRegistry;
    if Represents(h, m, lay, inf) && h' == h && OverlayValid(o, HeldRegistry(h)) {
      RepresentsRegistry(h, m, lay, inf);
      OverlayBegins(h, m, lay, inf, o);
      var s := Overlaid(h, EmptyRecord(o, h, m.policy), map[], m.policy);
      var l := OverlayLays(
        s, Overlay(m, lay, h.rowMap, map[]), m, lay, inf, o.operations, o.overlay, o.originAdditions);
      var s' := OverlaidAll(s, o.operations, inf);
      if s'.Some? { LayingIsShown(s'.value, l, m, lay, inf); }
    }
  }

  lemma LayingIsShown(s: Overlaid, l: Overlay, m: Model, lay: Layout, inf: real)
    requires Laying(s, l, m, lay, inf)
    ensures ShowsOverlaid(s.held, l.model, inf)
  {
    hide Placed, Alters, Solved, Cached, WellFormed, Shows, Captured, ReferencesResolve;
  }

  lemma BoundIsValid(o: CompiledOverlay, present: Registry, w: VariableId, b: Bounds)
    requires o.operations == [SetTemporaryVariableBounds(w, b)] && o.compilation != o.base && w in present.variables
    ensures OverlayValid(o, present)
    ensures forall rows :: AllAppliable(o.operations, rows, {})
  {
    assert o.operations[1..] == [];
    var op := o.operations[0];
    assert OverlayOpValid(op, present, o.overlay, o.originAdditions);
    assert OverlayOpsValid(o.operations[1..], OverlayRegistered(op, present), o.overlay, o.originAdditions);
    forall rows
      ensures AllAppliable(o.operations, rows, {})
    {
      assert AllAppliable(o.operations[1..], rows, TemporariesAfter(op, {}));
    }
  }

  /** The overlaid bound keeps all index maps, so a variable without an index stays without one. */
  lemma BoundLaysOnTear(s: Overlaid, m: Model, v: VariableId, w: VariableId, b: Bounds, ops: seq<OverlayOp>, inf: real)
    requires ops == [SetTemporaryVariableBounds(w, b)] && v in m.variables && v !in s.held.colMap
    requires w in s.held.colMap && w in s.held.caches.varBounds && 0 <= s.held.colMap[w] < |s.held.native.cols|
    ensures
      var s' := OverlaidAll(s, ops, inf);
      s'.Some? && !ShowsOverlaid(s'.value.held, LaidAll(m, ops), inf)
  {
    hide Shows;
    assert ops[1..] == [];
    var s', om := OverlaidBy(s, ops[0], inf), Laid(m, ops[0]);
    assert LaidAll(om, ops[1..]) == om;
    assert OverlaidAll(s'.value, ops[1..], inf) == s';
    forall lay, rows | Shows(s'.value.held.(rowMap := rows), OverlayView(om), lay, inf)
      ensures false
    {
      ShowsIsDimensioned(s'.value.held.(rowMap := rows), OverlayView(om), lay, inf);
    }
  }

  /** A removal that fails natively, and an overlay of the same base that bounds another variable. */
  lemma NextOverlayMisses(inf: real)
    ensures exists h, m, lay, failed, failedOrigins, h', o ::
      !NextOverlayShows(NATIVE_FAILURE, h, m, lay, failed, failedOrigins, h', o, inf)
  {
    hide Represents, OverlaidAll, LaidAll, OverlayValid, AllAppliable, Issuable, Torn, ShowsOverlaid;
    var v, w, b := VariableId(0), VariableId(1), Bounds(Finite(2.0), Finite(3.0));
    var m, lay, h := TwoVariables(v, w, inf);
    var none := Origins(map[], map[], map[]);
    var failed, h' := [RemoveVariable(v)], h.(colMap := h.colMap - {v});
    var o := CompiledOverlay(0, 1, 0, [SetTemporaryVariableBounds(w, b)], none);
    RepresentsMeasures(h, m, lay, inf);
    RepresentsIsDimensioned(h, m, lay, inf);
    RemovalTears(h, v, failed, none, inf, h');
    VariableOpIsIssuable(m, failed, none);
    BoundIsValid(o, HeldRegistry(h'), w, b);
    BoundIsValid(o, RegistryOf(m), w, b);
    BoundsAreCached(m, inf);
    BoundLaysOnTear(Overlaid(h', EmptyRecord(o, h', m.policy), map[], m.policy), m, v, w, b, o.operations, inf);
    assert !NextOverlayShows(NATIVE_FAILURE, h, m, lay, failed, none, h', o, inf);
  }

  predicate Matches(record: OverlayRecord, receipt: Receipt) {
    receipt == Receipt(record.overlay, record.base, record.applied)
  }

  /** While an overlay is in force its rollback finds everything, ends on the base, and the record says so later too. */
  lemma LayingRollsBack(s: Overlaid, l: Overlay, m: Model, lay: Layout, inf: real)
    requires Laying(s, l, m, lay, inf)
    ensures CanRollBack(s.held, s.record) && Represents(RolledBack(s.held, s.record), m, lay, inf)
    ensures Captured(s.record, m, lay, inf) && Records(s.record, m, inf)
  {
    hide Compounds, CanRollBack, Represents, Records, RolledBack, ReferencesResolve;
    InForceRollsBack(s, l.model, m, l.lay, lay, l.rows, inf);
    CompoundsRecords(s, l.model, m, l.lay, lay, l.rows, inf);
  }

  lemma SyncedMeasuresMaps(h: Held, m: Model, lay: Layout, inf: real)
    requires Represents(h, m, lay, inf)
    ensures SoundColumns(h) && OneToOne(h.rowMap)
  {
    hide WellFormed, CachesOf;
    RepresentedColumnsAreSound(h, m, lay, inf);
    NumbersIsBijection(h.rowMap, lay.rows);
  }

  lemma VariablePutBackNext(h: Held, done: map<VariableId, Range>, v: VariableId, b: Range)
    requires OneToOne(h.colMap) && v in h.colMap && 0 <= h.colMap[v] < |h.native.cols| && v !in done
    ensures
      var was, k := VariablesPutBack(h, done), h.colMap[v];
      VariablesPutBack(h, done[v := b])
      == was.(native := was.native.(cols := was.native.cols[k := was.native.cols[k].(bounds := b)]),
              caches := was.caches.(varBounds := was.caches.varBounds[v := b]))
  {
    AllWrittenNext(h.native.cols, h.colMap, done, COLUMN_BOUNDS, v, b);
    hide AllWritten;
    assert h.caches.varBounds + done[v := b] == (h.caches.varBounds + done)[v := b];
  }

  lemma RowPutBackNext(h: Held, done: map<RowId, Range>, r: RowId, b: Range)
    requires OneToOne(h.rowMap) && r in h.rowMap && 0 <= h.rowMap[r] < |h.native.rows| && r !in done
    ensures
      var was, k := RowsPutBack(h, done), h.rowMap[r];
      RowsPutBack(h, done[r := b])
      == was.(native := was.native.(rows := was.native.rows[k := was.native.rows[k].(bounds := b)]),
              caches := was.caches.(rowBounds := was.caches.rowBounds[r := b]))
  {
    AllWrittenNext(h.native.rows, h.rowMap, done, ROW_BOUNDS, r, b);
    hide AllWritten;
    assert h.caches.rowBounds + done[r := b] == (h.caches.rowBounds + done)[r := b];
  }

  lemma AddedIdsNext<Id>(added: seq<(Id, int)>, k: nat)
    requires k < |added|
    ensures AddedIds(added[..k + 1]) == AddedIds(added[..k]) + {added[k].0}
  {
    assert forall i :: 0 <= i < k ==> added[..k + 1][i] == added[..k][i];
    assert added[..k + 1][k] == added[k];
  }

  class HighsSession {
    const proj: Projection
    var health: Health
    var revision: Revision
    var current: Option<CompilationId>
    var policy: Policy
    var overlay: Option<OverlayRecord>
    /** The overlay in force, if there is one; the session itself does not keep track of this. */
    ghost var laid: Option<Overlay>

    ghost predicate Apart()
      reads this
    {
      this !in proj.Repr && proj.Separate()
    }

    /** The state of the apply loop. */
    ghost function Now(record: OverlayRecord, temporaries: map<ObjectiveId, CompiledObjective>): Overlaid
      reads this, proj.Repr
    {
      Overlaid(proj.State(), record, temporaries, policy)
    }

    /** The state in which the apply loop of `o` begins. */
    ghost function Begun(o: CompiledOverlay): Overlaid
      reads this, proj.Repr
    {
      Now(EmptyRecord(o, proj.State(), policy), map[])
    }

    /** What each compilation id names, as the compiler issued them. */
    ghost const named: CompilationId -> Model

    ghost function Named(c: Option<CompilationId>): Model {
      if c.None? then NO_MODEL else named(c.value)
    }

    /** No overlay is in force and everything held is the compiled model that `current` names. */
    ghost predicate Synced()
      reads this, proj.Repr
    {
      laid.None? && proj.Valid() && proj.model == Named(current) && policy == proj.model.policy
    }

    /** An overlay is in force, natively the model that `current` names; a rollback finds what it needs. */
    ghost predicate InOverlay()
      reads this, proj.Repr
    {
      && laid.Some? && overlay.Some?
      && Lays(overlay.value, laid.value.temporaries, laid.value)
      && current == Some(overlay.value.applied) && laid.value.model == named(overlay.value.applied)
      && proj.model == named(overlay.value.base)
    }

    /** The apply loop has got as far as showing `l` on top of the projection's model. */
    ghost predicate Lays(record: OverlayRecord, temporaries: map<ObjectiveId, CompiledObjective>, l: Overlay)
      reads this, proj.Repr
    {
      Laying(Now(record, temporaries), l, proj.model, proj.lay, proj.inf)
    }

    constructor (inf: real, ghost named: CompilationId -> Model)
      ensures fresh(this) && fresh(proj.Repr) && Apart() && Synced() && this.named == named
      ensures health == Ready && revision == 0 && current == None && overlay == None && laid == None
      ensures proj.Valid() && proj.model == NO_MODEL && policy == NoObjective && proj.inf == inf
    {
      proj := new Projection(inf);
      this.named := named;
      health, revision, current, policy, overlay, laid := Ready, 0, None, NoObjective, None, None;
    }

    // -------------------------------------------------------------- synchronization

    /** `synchronize` with a compiled snapshot, in any state: success makes the session hold it. */
    method SynchronizeRebuild(s: BackendSnapshot) returns (st: Status)
      requires Apart() && (SnapshotValid(s) ==> named(s.compilation) == ModelOf(s))
      modifies this, proj.Repr
      ensures Apart()
      ensures st.Ok? ==> health.Ready? && current == Some(s.compilation) && revision == s.revision && policy == s.policy
      ensures st.Ok? ==> Holds(proj.State(), ModelOf(s), proj.lay, proj.inf)
      ensures st.Ok? && ObjectivesAreUsers(ModelOf(s)) ==> Synced()
      ensures st.Failed? ==> health == NeedsRebuild
      ensures st.Failed? ==> st == NATIVE_FAILURE || !SnapshotValid(s) || !Representable(s.policy)
      ensures overlay == old(overlay)
      ensures !SnapshotValid(s) ==> st == INVALID && proj.State() == old(proj.State())
    {
      hide SnapshotValid, SnapshotSound, ModelOf, Represents, Holds, ObjectivesAreUsers;
      if !SnapshotValid(s) { health := NeedsRebuild; return INVALID; }
      ValidIsSound(s);
      st := proj.RebuildFromSnapshot(s);
      if st.Failed? {
        health := if st.effect.Terminal? then Broken else NeedsRebuild;
        return;
      }
      health, revision := Ready, s.revision;
      current := Some(s.compilation);
      policy := s.policy;
      laid := None;
      assert ModelOf(s).policy == s.policy by { SnapshotPolicy(s); }
    }

    /**
     * `synchronize` with a compiled delta, on whatever is held and in any health: it succeeds on exactly the batches
     * its guards accept, unless the policy is unsupported or a native call fails, and computes `HeldAfterAll` of what
     * is held. A refusal changes nothing but the health; a native failure leaves what `Torn` says. A synchronized
     * session arrives at the target, and the remembered policy is the target's exactly when the batch is settled.
     */
    method SynchronizeDelta(b: BackendDelta) returns (st: Status)
      requires Apart() && (UsesSurface(b.operations) ==> SoundColumns(proj.State()))
      requires named(b.toCompilation) == ApplyAll(named(b.fromCompilation), b.operations, b.originAdditions)
      requires CompiledAll(b.operations, named(b.fromCompilation), b.originAdditions)
      modifies this, proj.Repr
      ensures Apart() && overlay == old(overlay) && laid == old(laid)
      ensures
        var accepted := DeltaAccepted(old(current), old(revision), HeldRegistry(old(proj.State())), b);
        var supported := forall i :: 0 <= i < |b.operations| ==> PolicyRepresentable(b.operations[i]);
        (st.Ok? ==> accepted && supported)
          && (accepted && supported ==> st.Ok? || st == Failed(NativeCall, Recoverable))
          && (!accepted ==> st.Failed? && st != NATIVE_FAILURE)
      ensures old(current) != Some(b.fromCompilation) ==> st == Failed(StaleCompilation, Recoverable)
      ensures old(current) == Some(b.fromCompilation) && old(revision) != b.fromRevision ==>
          st == Failed(WrongRevision, Recoverable)
      ensures old(current) == Some(b.fromCompilation) && old(revision) == b.fromRevision ==>
          !DeltaValid(b, HeldRegistry(old(proj.State()))) ==> st == Failed(InvalidInput, Recoverable)
      ensures st.Ok? ==>
        && HeldAfterAll(old(proj.State()), b.operations, b.originAdditions, proj.inf) == Some(proj.State())
        && health.Ready? && current == Some(b.toCompilation) && revision == b.toRevision
        && old(current) == Some(b.fromCompilation) && b.fromCompilation != b.toCompilation
        && old(revision) == b.fromRevision && old(revision) < revision
        && policy == TrackedPolicy(old(policy), b.operations)
      ensures st.Failed? ==>
        && Leaves(st, old(proj.State()), b.operations, b.originAdditions, proj.inf, proj.State())
        && health == NeedsRebuild && current == old(current) && revision == old(revision) && policy == old(policy)
      ensures st.Failed? && st != NATIVE_FAILURE && old(Synced()) ==> Synced()
      ensures st.Ok? && old(Synced()) ==>
        && proj.Valid() && proj.model == named(b.toCompilation)
        && (Synced() <==> Settled(old(policy), b.operations))
    {
      hide Represents, OpsValid, CompiledAll, ApplyAll, PolicyRepresentable, RegistryOf, Settled, TrackedPolicy,
        SoundColumns, HeldAfterAll, Torn, ObjectivesStem, UsesSurface;
      ghost var m, synced := proj.model, Synced();
      if synced { SyncedMeasures(); }
      if current.None? { health := NeedsRebuild; return Failed(StaleCompilation, Recoverable); }
      if current.value != b.fromCompilation { health := NeedsRebuild; return Failed(StaleCompilation, Recoverable); }
      if b.fromRevision != revision { health := NeedsRebuild; return Failed(WrongRevision, Recoverable); }
      if !DeltaValid(b, Registry(proj.colMap.idToIdx.Keys, proj.rowMap.idToIdx.Keys, proj.userObjs.Keys)) {
        health := NeedsRebuild;
        return Failed(InvalidInput, Recoverable);
      }
      CompiledStems(b.operations, named(b.fromCompilation), b.originAdditions);
      st := proj.ApplyBackendDelta(b.operations, b.originAdditions);
      if st.Failed? {
        health := if st.effect.Terminal? then Broken else NeedsRebuild;
        return;
      }
      health, revision := Ready, b.toRevision;
      current := Some(b.toCompilation);
      policy := LastPolicy(policy, b.operations);
      if synced { TrackingIsExactlySettled(m, b.operations, b.originAdditions); }
    }

    /** `synchronize` with a canonical snapshot or batch is refused. */
    method SynchronizeCanonical() returns (st: Status)
      modifies this`health
      ensures st.Failed? && health == NeedsRebuild
    {
      health := NeedsRebuild;
      return INVALID;
    }

    /** The reverse search for the batch's last policy op. */
    method LastPolicy(was: Policy, ops: seq<BackendOp>) returns (p: Policy)
      ensures p == TrackedPolicy(was, ops)
    {
      var k := |ops|;
      assert ops[..k] == ops;
      while k > 0
        invariant 0 <= k <= |ops|
        invariant TrackedPolicy(was, ops[..k]) == TrackedPolicy(was, ops)
      {
        assert ops[..k][..k - 1] == ops[..k - 1];
        if ops[k - 1].SetObjectivePolicy? { return ops[k - 1].policy; }
        k := k - 1;
      }
      return was;
    }

    // -------------------------------------------------------------- overlay ops

    method LayVariable(
        v: CompiledVariable, record: OverlayRecord, ghost temporaries: map<ObjectiveId, CompiledObjective>)
      returns (st: Status, after: OverlayRecord)
      requires Apart()
      modifies proj.highs, proj.colMap, proj`varBounds
      ensures st.Failed? ==> st == NATIVE_FAILURE || (st == MISSING && v.id in old(proj.colMap.idToIdx))
      ensures st.Ok? ==> v.id !in old(proj.colMap.idToIdx)
      ensures st.Ok? ==> Now(after, temporaries) == WithColumnAdded(old(Now(record, temporaries)), v, proj.inf)
    {
      after := record;
      if v.id in proj.colMap.idToIdx { return MISSING, after; }
      var col := |proj.highs.m.cols|;
      st := proj.PlaceColumn(v);
      if st.Failed? { return; }
      after := record.(addedColumns := record.addedColumns + [(v.id, col)]);
    }

    method LayVariableBounds(
        v: VariableId, b: Bounds, record: OverlayRecord, ghost temporaries: map<ObjectiveId, CompiledObjective>)
      returns (st: Status, after: OverlayRecord)
      requires Apart()
      modifies proj.highs, proj`varBounds
      ensures st.Failed? ==>
        st == NATIVE_FAILURE || (st == MISSING && (v !in proj.colMap.idToIdx || v !in old(proj.varBounds)))
      ensures
        var h := old(proj.State());
        st.Ok? ==>
          && v in h.colMap && v in h.caches.varBounds && 0 <= h.colMap[v] < |h.native.cols|
          && Now(after, temporaries) == WithColumnBounds(old(Now(record, temporaries)), v, b, proj.inf)
    {
      after := record;
      var idx := proj.colMap.Get(v);
      if idx.None? { return MISSING, after; }
      if v !in proj.varBounds { return MISSING, after; }
      var prior := proj.varBounds[v];
      var range := NormalizeBounds(b, proj.inf);
      var ok := proj.highs.ChangeColBounds(idx.value, range);
      if !ok { return NATIVE_FAILURE, after; }
      if v !in record.priorBounds {
        after := record.(priorBounds := record.priorBounds[v := prior]);
      }
      proj.varBounds := proj.varBounds[v := range];
      return Ok, after;
    }

    method LayRowBounds(
        r: RowId, b: Bounds, record: OverlayRecord, ghost temporaries: map<ObjectiveId, CompiledObjective>)
      returns (st: Status, after: OverlayRecord)
      requires Apart()
      modifies proj.highs, proj`rowBounds
      ensures st.Failed? ==>
        st == NATIVE_FAILURE || (st == MISSING && (r !in proj.rowMap.idToIdx || r !in old(proj.rowBounds)))
      ensures
        var h := old(proj.State());
        st.Ok? ==>
          && r in h.rowMap && r in h.caches.rowBounds && 0 <= h.rowMap[r] < |h.native.rows|
          && Now(after, temporaries) == WithRowBounds(old(Now(record, temporaries)), r, b, proj.inf)
    {
      after := record;
      var idx := proj.rowMap.Get(r);
      if idx.None? { return MISSING, after; }
      if r !in proj.rowBounds { return MISSING, after; }
      var prior := proj.rowBounds[r];
      var range := NormalizeBounds(b, proj.inf);
      var ok := proj.highs.ChangeRowBounds(idx.value, range);
      if !ok { return NATIVE_FAILURE, after; }
      if r !in record.priorRowBounds {
        after := record.(priorRowBounds := record.priorRowBounds[r := prior]);
      }
      proj.rowBounds := proj.rowBounds[r := range];
      return Ok, after;
    }

    method LayRow(r: CompiledRow, record: OverlayRecord, ghost temporaries: map<ObjectiveId, CompiledObjective>)
      returns (st: Status, after: OverlayRecord)
      requires Apart()
      modifies proj.highs
      ensures st.Failed? ==>
        st == NATIVE_FAILURE || (st == MISSING && !Refers(r.coefficients, proj.colMap.idToIdx.Keys))
      ensures st.Ok? ==> RowFits(old(proj.State()), r)
      ensures st.Ok? ==> Now(after, temporaries) == WithRowAdded(old(Now(record, temporaries)), r, proj.inf)
    {
      after := record;
      var found, indices, values := proj.ResolveColumns(r.coefficients);
      if !found { return MISSING, after; }
      var ok := proj.highs.AddRow(NormalizeBounds(r.bounds, proj.inf), indices, values);
      if !ok { return NATIVE_FAILURE, after; }
      after := record.(addedRows := record.addedRows + [(r.id, |proj.highs.m.rows| - 1)]);
      return Ok, after;
    }

    method LayCost(
        o: ObjectiveId, v: VariableId, x: real, ghost record: OverlayRecord,
        temporaries: map<ObjectiveId, CompiledObjective>)
      returns (st: Status, after: map<ObjectiveId, CompiledObjective>)
      requires Apart()
      modifies proj.highs
      ensures st.Failed? ==> st == NATIVE_FAILURE || (st == MISSING && (v !in proj.colMap.idToIdx || o !in temporaries))
      ensures
        var h := old(proj.State());
        st.Ok? ==>
          && o in temporaries && v in h.colMap && (policy == Single(o) ==> 0 <= h.colMap[v] < |h.native.costs|)
          && Now(record, after) == WithTemporaryCost(old(Now(record, temporaries)), o, v, x)
    {
      after := temporaries;
      var col := proj.colMap.Get(v);
      if col.None? { return MISSING, after; }
      if o !in temporaries { return MISSING, after; }
      after := temporaries[o := temporaries[o].(coefficients := Upserted(temporaries[o].coefficients, v, x))];
      if policy == Single(o) {
        var ok := proj.highs.ChangeColCost(col.value, x);
        if !ok { return NATIVE_FAILURE, after; }
      }
      return Ok, after;
    }

    method LayPolicy(p: Policy, ghost record: OverlayRecord, temporaries: map<ObjectiveId, CompiledObjective>)
      returns (st: Status)
      requires Apart() && SoundColumns(proj.State())
      modifies proj.highs, proj`active, this`policy
      ensures
        var s := old(Now(record, temporaries));
        && (st.Failed? && st != NATIVE_FAILURE ==> !Representable(p) || !PolicyFits(s, p))
        && (st.Ok? ==> Representable(p) && PolicyFits(s, p) && Now(record, temporaries) == WithPolicy(s, p))
    {
      if p.Single? && p.objective in temporaries {
        st := proj.ProjectTemporaryObjective(temporaries[p.objective]);
        if st.Failed? { return; }
        proj.active := None;
      } else {
        st := proj.ProjectObjectivePolicy(p);
        if st.Failed? { return; }
      }
      policy := p;
    }

    /** One arm of the apply loop. */
    method LayOp(op: OverlayOp, record: OverlayRecord, temporaries: map<ObjectiveId, CompiledObjective>)
      returns (st: Status, record': OverlayRecord, temporaries': map<ObjectiveId, CompiledObjective>)
      requires Apart() && (op.OverridePolicy? ==> SoundColumns(proj.State()))
      modifies proj.highs, proj.colMap, proj`varBounds, proj`rowBounds, proj`active, this`policy
      ensures st.Failed? && st != NATIVE_FAILURE ==> OverlaidBy(old(Now(record, temporaries)), op, proj.inf) == None
      ensures st.Ok? ==>
          OverlaidBy(old(Now(record, temporaries)), op, proj.inf) == Some(Now(record', temporaries'))
    {
      hide WithColumnAdded, WithColumnBounds, WithRowBounds, WithRowAdded, WithTemporaryCost, WithPolicy, SoundColumns,
        PolicyFits;
      st, record', temporaries' := Ok, record, temporaries;
      match op {
        case AddTemporaryVariable(v) => st, record' := LayVariable(v, record, temporaries);
        case SetTemporaryVariableBounds(v, b) => st, record' := LayVariableBounds(v, b, record, temporaries);
        case SetTemporaryRowBounds(r, b) => st, record' := LayRowBounds(r, b, record, temporaries);
        case AddTemporaryObjective(o) =>
          if o.id in temporaries { st := MISSING; }
          temporaries' := temporaries[o.id := o];
        case SetTemporaryObjectiveCoefficient(o, v, x) => st, temporaries' := LayCost(o, v, x, record, temporaries);
        case AddTemporaryRow(r) => st, record' := LayRow(r, record, temporaries);
        case RemoveTemporaryRow(_) => st := INVALID;
        case OverridePolicy(p) => st := LayPolicy(p, record, temporaries);
      }
    }

    // -------------------------------------------------------------- applying an overlay

    /**
     * `apply_overlay`, on whatever is held: the guards and the preflight check look at ids only, and the loop
     * computes `OverlaidAll` of what is held. A synchronized session accepts exactly the overlays of `Accepts`,
     * unless a native call fails, and then shows the overlaid model; any failure asks for a rebuild.
     */
    method ApplyOverlay(o: CompiledOverlay) returns (st: Status, receipt: Receipt)
      requires Apart() && (OverridesPolicy(o.operations) ==> SoundColumns(proj.State()))
      requires named(o.compilation) == LaidAll(named(o.base), o.operations)
      modifies this, proj.highs, proj.colMap, proj`varBounds, proj`rowBounds, proj`active
      ensures Apart() && receipt == Receipt(o.overlay, o.base, o.compilation)
      ensures st.Ok? ==> old(current) == Some(o.base) && OverlayValid(o, HeldRegistry(old(proj.State())))
      ensures st.Ok? ==>
          health == old(health) && current == Some(o.compilation) && current != old(current) && overlay.Some?
      ensures st.Ok? ==>
        var s := OverlaidAll(old(Begun(o)), o.operations, proj.inf);
        s.Some? && s.value == Now(overlay.value, s.value.temporaries)
      ensures st.Ok? && old(Synced()) ==>
        && Accepts(o, proj.model) && InOverlay() && Remembers()
        && overlay.value.base == o.base && overlay.value.overlay == o.overlay
        && proj.highs.m.sense == SensesShown(o.operations, proj.model, old(proj.highs.m.sense))
      ensures st.Failed? ==> overlay == old(overlay) && health == NeedsRebuild
      ensures revision == old(revision)
      ensures old(current) != Some(o.base) || !OverlayValid(o, HeldRegistry(old(proj.State()))) ==>
        st == Failed(InvalidInput, RequiresRebuild) && proj.State() == old(proj.State())
      ensures st.Failed? && st != NATIVE_FAILURE && old(Synced()) ==>
          old(current) != Some(o.base) || !Accepts(o, proj.model)
    {
      hide Laying, Represents, OverlayOpsValid, RegistryOf, AllAppliable, LaidAll, SensesShown, Records, SoundColumns,
        OverlaidAll;
      receipt := Receipt(o.overlay, o.base, o.compilation);
      ghost var synced := Synced();
      if synced { SyncedMeasures(); }
      if current != Some(o.base) { health := NeedsRebuild; return INVALID, receipt; }
      if !OverlayValid(o, Registry(proj.colMap.idToIdx.Keys, proj.rowMap.idToIdx.Keys, proj.userObjs.Keys)) {
        health := NeedsRebuild;
        return INVALID, receipt;
      }
      ghost var lays := SyncedLays(o);
      var record, temporaries: map<ObjectiveId, CompiledObjective> := EmptyRecord(o, proj.State(), policy), map[];
      st, record, temporaries := LayAll(o.operations, record, temporaries);
      if st.Failed? { health := NeedsRebuild; return; }
      if synced {
        laid := Some(lays);
        InForceRecords(record, temporaries, lays);
      }
      current := Some(o.compilation);
      overlay := Some(record);
    }

    /** What the loop will make of a synchronized session. */
    lemma SyncedLays(o: CompiledOverlay) returns (l: Overlay)
      ensures Synced() && OverlayValid(o, HeldRegistry(proj.State())) ==>
        var s' := OverlaidAll(Begun(o), o.operations, proj.inf);
        && (s'.Some? <==> Accepts(o, proj.model))
        && (s'.Some? ==>
              && Laying(s'.value, l, proj.model, proj.lay, proj.inf)
              && l.model == LaidAll(proj.model, o.operations)
              && s'.value.held.native.sense == SensesShown(o.operations, proj.model, proj.highs.m.sense)
              && s'.value.record.overlay == o.overlay && s'.value.record.base == o.base
              && s'.value.record.applied == o.compilation)
    {
      hide Laying, Represents, OverlayOpsValid, RegistryOf, AllAppliable, LaidAll, SensesShown, OverlaidAll,
        HeldRegistry;
      l := Overlay(proj.model, proj.lay, proj.rowMap.idToIdx, map[]);
      if Synced() && OverlayValid(o, HeldRegistry(proj.State())) {
        RepresentsRegistry(proj.State(), proj.model, proj.lay, proj.inf);
        assert Begun(o).temporaries.Keys == {};
        OverlayBegins(proj.State(), proj.model, proj.lay, proj.inf, o);
        l := OverlayLays(
          Begun(o), l, proj.model, proj.lay, proj.inf, o.operations, o.overlay, o.originAdditions);
      }
    }

    lemma InForceRecords(record: OverlayRecord, temporaries: map<ObjectiveId, CompiledObjective>, l: Overlay)
      requires Lays(record, temporaries, l)
      ensures Records(record, proj.model, proj.inf) && l.temporaries == temporaries
    {
      hide Records, Compounds, Captured, ReferencesResolve, CanRollBack, RolledBack, Represents;
      LayingRollsBack(Now(record, temporaries), l, proj.model, proj.lay, proj.inf);
    }

    lemma SyncedMeasures()
      requires Synced()
      ensures RegistryOf(proj.model)
        == Registry(proj.colMap.idToIdx.Keys, proj.rowMap.idToIdx.Keys, proj.userObjs.Keys)
    {
      RepresentsMeasures(proj.State(), proj.model, proj.lay, proj.inf);
    }

    /** The apply loop. */
    method LayAll(ops: seq<OverlayOp>, record: OverlayRecord, temporaries: map<ObjectiveId, CompiledObjective>)
      returns (st: Status, record': OverlayRecord, temporaries': map<ObjectiveId, CompiledObjective>)
      requires Apart() && (OverridesPolicy(ops) ==> SoundColumns(proj.State()))
      modifies proj.highs, proj.colMap, proj`varBounds, proj`rowBounds, proj`active, this`policy
      ensures st.Failed? && st != NATIVE_FAILURE ==> OverlaidAll(old(Now(record, temporaries)), ops, proj.inf) == None
      ensures st.Ok? ==>
          OverlaidAll(old(Now(record, temporaries)), ops, proj.inf) == Some(Now(record', temporaries'))
    {
      hide SoundColumns, OverlaidBy;
      record', temporaries' := record, temporaries;
      ghost var s := Now(record, temporaries);
      var k := 0;
      while k < |ops|
        invariant 0 <= k <= |ops|
        invariant OverlaidAll(Now(record', temporaries'), ops[k..], proj.inf) == OverlaidAll(s, ops, proj.inf)
        invariant OverridesPolicy(ops) ==> SoundColumns(proj.State())
      {
        assert ops[k..][1..] == ops[k + 1..];
        ghost var before := Now(record', temporaries');
        st, record', temporaries' := LayOp(ops[k], record', temporaries');
        if st.Failed? { return; }
        if SoundColumns(before.held) { SoundColumnsUnderOverlay(before, ops[k], proj.inf); }
        k := k + 1;
      }
      st := Ok;
    }

    // -------------------------------------------------------------- rolling it back

    /** The loop that puts prior variable bounds back, in any order. */
    method RestoreVariableBounds(record: OverlayRecord) returns (st: Status)
      requires Apart() && OneToOne(proj.colMap.idToIdx)
      modifies proj.highs, proj`varBounds
      ensures st.Failed? ==>
        || st == NATIVE_FAILURE
        || (st == Failed(MissingEntity, RequiresRebuild) && !(record.priorBounds.Keys <= proj.colMap.idToIdx.Keys))
      ensures st.Ok? ==> record.priorBounds.Keys <= proj.colMap.idToIdx.Keys
      ensures st.Ok? ==> proj.State() == VariablesPutBack(old(proj.State()), record.priorBounds)
    {
      hide RowsPutBack, VariablesPutBack, OneToOne;
      var todo := record.priorBounds.Keys;
      ghost var h, done: map<VariableId, Range> := proj.State(), map[];
      VariablesPutBackNothing(h);
      while todo != {}
        invariant todo <= record.priorBounds.Keys && done.Keys == record.priorBounds.Keys - todo
        invariant forall x :: x in done ==> done[x] == record.priorBounds[x]
        invariant done.Keys <= h.colMap.Keys && proj.State() == VariablesPutBack(h, done)
        decreases todo
      {
        var v :| v in todo;
        st := RestoreVariable(v, record.priorBounds[v], h, done);
        if st.Failed? { return; }
        done := done[v := record.priorBounds[v]];
        todo := todo - {v};
      }
      assert done == record.priorBounds;
      st := Ok;
    }

    /** One turn of that loop. */
    method RestoreVariable(v: VariableId, b: Range, ghost h: Held, ghost done: map<VariableId, Range>)
      returns (st: Status)
      requires Apart() && OneToOne(proj.colMap.idToIdx) && v !in done && h.colMap == proj.colMap.idToIdx
      requires proj.State() == VariablesPutBack(h, done)
      modifies proj.highs, proj`varBounds
      ensures st.Failed? ==> st == NATIVE_FAILURE || (st == MISSING && v !in h.colMap)
      ensures st.Ok? ==> v in h.colMap && proj.State() == VariablesPutBack(h, done[v := b])
    {
      hide AllWritten, OneToOne;
      var idx := proj.colMap.Get(v);
      if idx.None? { return MISSING; }
      var ok := proj.highs.ChangeColBounds(idx.value, b);
      if !ok { return NATIVE_FAILURE; }
      proj.varBounds := proj.varBounds[v := b];
      VariablePutBackNext(h, done, v, b);
      return Ok;
    }

    /** One turn of the loop over rows. */
    method RestoreRow(r: RowId, b: Range, ghost h: Held, ghost done: map<RowId, Range>) returns (st: Status)
      requires Apart() && OneToOne(proj.rowMap.idToIdx) && r !in done && h.rowMap == proj.rowMap.idToIdx
      requires proj.State() == RowsPutBack(h, done)
      modifies proj.highs, proj`rowBounds
      ensures st.Failed? ==> st == NATIVE_FAILURE || (st == MISSING && r !in h.rowMap)
      ensures st.Ok? ==> r in h.rowMap && proj.State() == RowsPutBack(h, done[r := b])
    {
      hide AllWritten, OneToOne;
      var idx := proj.rowMap.Get(r);
      if idx.None? { return MISSING; }
      var ok := proj.highs.ChangeRowBounds(idx.value, b);
      if !ok { return NATIVE_FAILURE; }
      proj.rowBounds := proj.rowBounds[r := b];
      RowPutBackNext(h, done, r, b);
      return Ok;
    }

    method RestoreRowBounds(record: OverlayRecord) returns (st: Status)
      requires Apart() && OneToOne(proj.rowMap.idToIdx)
      modifies proj.highs, proj`rowBounds
      ensures st.Failed? ==>
        st == NATIVE_FAILURE || (st == MISSING && !(record.priorRowBounds.Keys <= proj.rowMap.idToIdx.Keys))
      ensures st.Ok? ==> record.priorRowBounds.Keys <= proj.rowMap.idToIdx.Keys
      ensures st.Ok? ==> proj.State() == RowsPutBack(old(proj.State()), record.priorRowBounds)
    {
      hide RowsPutBack, VariablesPutBack, OneToOne;
      var todo := record.priorRowBounds.Keys;
      ghost var h, done: map<RowId, Range> := proj.State(), map[];
      VariablesPutBackNothing(h);
      while todo != {}
        invariant todo <= record.priorRowBounds.Keys && done.Keys == record.priorRowBounds.Keys - todo
        invariant forall x :: x in done ==> done[x] == record.priorRowBounds[x]
        invariant done.Keys <= h.rowMap.Keys && proj.State() == RowsPutBack(h, done)
        decreases todo
      {
        var r :| r in todo;
        st := RestoreRow(r, record.priorRowBounds[r], h, done);
        if st.Failed? { return; }
        done := done[r := record.priorRowBounds[r]];
        todo := todo - {r};
      }
      assert done == record.priorRowBounds;
      st := Ok;
    }

    /** Deletes the temporary rows in one call and forgets their ids. */
    method DeleteRows(record: OverlayRecord) returns (st: Status)
      requires Apart()
      modifies proj.highs, proj.rowMap, proj`rowBounds
      ensures st.Ok? || st == NATIVE_FAILURE
      ensures st.Ok? ==> InRange(NativeIndices(record.addedRows), |old(proj.State()).native.rows|)
      ensures st.Ok? ==> proj.State() == RowsDeleted(old(proj.State()), record)
    {
      if |record.addedRows| == 0 { return Ok; }
      var indices := NativeIndices(record.addedRows);
      var ok := proj.highs.DeleteRowsBySet(indices);
      if !ok { return NATIVE_FAILURE; }
      var k := 0;
      while k < |record.addedRows|
        invariant 0 <= k <= |record.addedRows|
        invariant proj.highs.m == WithoutRows(old(proj.highs.m), IndexSet(indices))
        invariant proj.rowMap.idToIdx == old(proj.rowMap.idToIdx) - AddedIds(record.addedRows[..k])
        invariant proj.rowBounds == old(proj.rowBounds) - AddedIds(record.addedRows[..k])
      {
        AddedIdsNext(record.addedRows, k);
        var _ := proj.rowMap.Remove(record.addedRows[k].0);
        proj.rowBounds := proj.rowBounds - {record.addedRows[k].0};
        k := k + 1;
      }
      assert record.addedRows[..k] == record.addedRows;
      return Ok;
    }

    method DeleteColumns(record: OverlayRecord) returns (st: Status)
      requires Apart()
      modifies proj.highs, proj.colMap, proj`varBounds
      ensures st.Ok? || st == NATIVE_FAILURE
      ensures st.Ok? ==> InRange(NativeIndices(record.addedColumns), |old(proj.State()).native.cols|)
      ensures st.Ok? ==> proj.State() == ColumnsDeleted(old(proj.State()), record)
    {
      if |record.addedColumns| == 0 { return Ok; }
      var indices := NativeIndices(record.addedColumns);
      var ok := proj.highs.DeleteColsBySet(indices);
      if !ok { return NATIVE_FAILURE; }
      var k := 0;
      while k < |record.addedColumns|
        invariant 0 <= k <= |record.addedColumns|
        invariant proj.highs.m == WithoutColumns(old(proj.highs.m), IndexSet(indices))
        invariant proj.colMap.idToIdx == old(proj.colMap.idToIdx) - AddedIds(record.addedColumns[..k])
        invariant proj.varBounds == old(proj.varBounds) - AddedIds(record.addedColumns[..k])
      {
        AddedIdsNext(record.addedColumns, k);
        var _ := proj.colMap.Remove(record.addedColumns[k].0);
        proj.varBounds := proj.varBounds - {record.addedColumns[k].0};
        k := k + 1;
      }
      assert record.addedColumns[..k] == record.addedColumns;
      return Ok;
    }

    /** Shows the prior policy again and deletes the temporary columns. */
    method RestorePolicy(record: OverlayRecord) returns (st: Status)
      requires Apart() && SoundColumns(proj.State())
      modifies proj.highs, proj.colMap, proj`varBounds, proj`active, this`policy
      ensures st.Failed? ==> st == NATIVE_FAILURE || (st == UNSUPPORTED && !Representable(record.priorPolicy))
      ensures st.Ok? ==>
        && Representable(record.priorPolicy) && policy == record.priorPolicy
        && InRange(NativeIndices(record.addedColumns), |old(proj.highs.m.cols)|)
        && proj.State() == ColumnsDeleted(PolicyShown(old(proj.State()), record.priorPolicy), record)
    {
      hide ColumnsDeleted, CostsWritten, InRange, OneToOne;
      st := proj.ProjectObjectivePolicy(record.priorPolicy);
      if st.Failed? { return; }
      policy := record.priorPolicy;
      st := DeleteColumns(record);
    }

    /** The whole rollback of the native model, on any state whose index maps are sound. */
    method Unlay(record: OverlayRecord) returns (st: Status)
      requires Apart() && SoundColumns(proj.State()) && OneToOne(proj.rowMap.idToIdx)
      modifies proj.highs, proj.colMap, proj.rowMap, proj`varBounds, proj`rowBounds, proj`active, this`policy
      ensures st.Failed? ==> st == NATIVE_FAILURE || !CanRollBack(old(proj.State()), record)
      ensures st.Ok? ==> CanRollBack(old(proj.State()), record) && policy == record.priorPolicy
      ensures st.Ok? ==> proj.State() == RolledBack(old(proj.State()), record)
    {
      hide AllWritten, OneToOne, PolicyShown, ColumnsDeleted, InRange;
      ghost var h := proj.State();
      st := RestoreVariableBounds(record);
      if st.Failed? { return; }
      st := RestoreRowBounds(record);
      if st.Failed? { return; }
      st := DeleteRows(record);
      if st.Failed? { return; }
      st := RestorePolicy(record);
    }

    /** What the last overlay recorded is still true of the model that its base names. */
    ghost predicate Remembers()
      reads this, proj
    {
      overlay.Some? ==> Records(overlay.value, named(overlay.value.base), proj.inf)
    }

    /** While an overlay is in force its rollback finds everything and ends on the base. */
    lemma RollbackIsPossible()
      requires InOverlay()
      ensures SoundColumns(proj.State()) && OneToOne(proj.rowMap.idToIdx)
      ensures CanRollBack(proj.State(), overlay.value) && Captured(overlay.value, proj.model, proj.lay, proj.inf)
      ensures overlay.value.priorPolicy == proj.model.policy
      ensures Represents(RolledBack(proj.State(), overlay.value), proj.model, proj.lay, proj.inf)
    {
      hide Laying, CanRollBack, Represents, RolledBack, SoundColumns, OneToOne;
      var s := Now(overlay.value, laid.value.temporaries);
      LayingMeasures(s, laid.value, proj.model, proj.lay, proj.inf);
      LayingRollsBack(s, laid.value, proj.model, proj.lay, proj.inf);
    }

    /** Index maps are sound while the session is synchronized or an overlay is in force. */
    lemma MapsAreSound()
      requires InOverlay() || Synced()
      ensures SoundColumns(proj.State()) && OneToOne(proj.rowMap.idToIdx)
    {
      hide Laying, Represents, SoundColumns, OneToOne;
      if InOverlay() {
        LayingMeasures(Now(overlay.value, laid.value.temporaries), laid.value, proj.model, proj.lay, proj.inf);
      } else {
        SyncedMeasuresMaps(proj.State(), proj.model, proj.lay, proj.inf);
      }
    }

    /**
     * `rollback_overlay`, on any session with sound index maps. Success with the matching receipt computes
     * `RolledBack`; while the overlay is in force that is exactly the base, and nothing but a native failure can
     * prevent it. On the base itself, which a used receipt finds, it is the base again. The record of the overlay
     * is never cleared.
     */
    method RollbackOverlay(receipt: Receipt) returns (outcome: Outcome)
      requires Apart() && (overlay.Some? ==> SoundColumns(proj.State()) && OneToOne(proj.rowMap.idToIdx))
      modifies this, proj.highs, proj.colMap, proj.rowMap, proj`varBounds, proj`rowBounds, proj`active
      ensures Apart() && overlay == old(overlay) && revision == old(revision)
      ensures old(overlay).None? <==> outcome == NothingApplied
      ensures outcome.Clean? ==>
        && receipt == Receipt(overlay.value.overlay, overlay.value.base, overlay.value.applied)
        && CanRollBack(old(proj.State()), overlay.value)
        && proj.State() == RolledBack(old(proj.State()), overlay.value)
        && policy == overlay.value.priorPolicy && laid.None? && health == old(health)
        && current == Some(outcome.restored) && outcome.restored == receipt.base
      ensures outcome.Clean? && old(InOverlay()) ==> Synced() && Captured(overlay.value, proj.model, proj.lay, proj.inf)
      ensures outcome.Clean? && old(Synced() && Remembers() && current == Some(receipt.base)) ==> Synced()
      ensures !outcome.Clean? ==> health == NeedsRebuild
      ensures
        var known := old(overlay);
        known.Some? && receipt != Receipt(known.value.overlay, known.value.base, known.value.applied) ==>
          && outcome == Uncertain(InvalidInput) && proj.State() == old(proj.State())
          && current == old(current) && policy == old(policy) && laid == old(laid)
      ensures old(overlay).Some? && Matches(old(overlay).value, receipt) ==>
        outcome.Clean? || outcome == Uncertain(NativeCall) || !CanRollBack(old(proj.State()), overlay.value)
      ensures old(InOverlay()) ==> CanRollBack(old(proj.State()), overlay.value)
    {
      hide Laying, Captured, Represents, CanRollBack, RolledBack, Records, SoundColumns, OneToOne;
      if overlay.None? { health := NeedsRebuild; return NothingApplied; }
      var record := overlay.value;
      if InOverlay() { RollbackIsPossible(); }
      if record.overlay != receipt.overlay || record.base != receipt.base || record.applied != receipt.applied {
        health := NeedsRebuild;
        return Uncertain(InvalidInput);
      }
      ghost var h := proj.State();
      BaseStays(h, record);
      var st := Unlay(record);
      if st.Failed? { health := NeedsRebuild; return Uncertain(st.cause); }
      current := Some(record.base);
      laid := None;
      return Clean(record.base);
    }

    lemma BaseStays(h: Held, record: OverlayRecord)
      requires h == proj.State() && overlay == Some(record)
      ensures Synced() && Remembers() && current == Some(record.base) && CanRollBack(h, record) ==>
        && Represents(RolledBack(h, record), proj.model, proj.lay, proj.inf)
        && record.priorPolicy == proj.model.policy
    {
      hide Represents, CanRollBack, RolledBack;
      if Synced() && Remembers() && current == Some(record.base) && CanRollBack(h, record) {
        BaseRollsBack(h, proj.model, proj.lay, proj.inf, record);
      }
    }

    /**
     * `verify_overlay_clean`: what is held is compared with the captured base, field by field. Where the session
     * represents a model, success means that this model has the frame of the captured base.
     */
    method VerifyOverlayClean() returns (st: Status)
      modifies this`health
      ensures st.Ok? <==>
        && overlay.Some? && current == Some(overlay.value.base)
        && |proj.highs.m.rows| == overlay.value.baseRowCount && |proj.highs.m.cols| == overlay.value.baseColCount
        && proj.varBounds == overlay.value.baseVarBounds && proj.rowBounds == overlay.value.baseRowBounds
        && proj.active == overlay.value.baseActive && policy == overlay.value.priorPolicy
      ensures st.Ok? ==>
        forall n, lay, m, lay0 |
          Represents(proj.State(), n, lay, proj.inf) && Captured(overlay.value, m, lay0, proj.inf) ::
          n.policy == policy ==> SameFrame(n, m, proj.inf)
      ensures health == if st.Failed? && overlay.Some? then NeedsRebuild else old(health)
    {
      hide Represents, Captured, SameFrame;
      if overlay.None? { return INVALID; }
      var record := overlay.value;
      var rows, cols := |proj.highs.m.rows|, |proj.highs.m.cols|;
      if current != Some(record.base) || rows != record.baseRowCount || cols != record.baseColCount
         || proj.varBounds != record.baseVarBounds || proj.rowBounds != record.baseRowBounds
         || proj.active != record.baseActive || policy != record.priorPolicy {
        health := NeedsRebuild;
        return INVALID;
      }
      forall n, lay, m, lay0 | Represents(proj.State(), n, lay, proj.inf) && n.policy == policy
        && Captured(record, m, lay0, proj.inf)
        ensures SameFrame(n, m, proj.inf)
      {
        LooksLikeFrame(record, proj.State(), n, lay, m, lay0, proj.inf);
      }
      return Ok;
    }

    // -------------------------------------------------------------- whole runs

    /** `rollback_and_verify`: a clean rollback always verifies, and `before` was any state of the same base. */
    method RollbackAndVerify(receipt: Receipt, ghost before: Held) returns (outcome: Outcome, verified: Status)
      requires Apart() && InOverlay() && Matches(overlay.value, receipt)
      requires Represents(before, proj.model, proj.lay, proj.inf)
      modifies this, proj.highs, proj.colMap, proj.rowMap, proj`varBounds, proj`rowBounds, proj`active
      ensures outcome.Clean? ==>
        && verified.Ok? && health == old(health) && Synced() && current == Some(receipt.base)
        && Restored(before, proj.State())
        && (proj.active.None? ==> proj.highs.m.sense == old(proj.highs.m.sense))
      ensures !outcome.Clean? ==> outcome == Uncertain(NativeCall) && health == NeedsRebuild
    {
      hide Represents, Laying, Captured, RolledBack, Records, CanRollBack, Restored, SameFrame;
      ghost var h := proj.State();
      MapsAreSound();
      verified := INVALID;
      outcome := RollbackOverlay(receipt);
      if !outcome.Clean? { return; }
      SameNumberingIsRestored(before, proj.State(), proj.model, proj.lay, proj.inf);
      CapturedLooksClean(overlay.value, proj.State(), proj.model, proj.lay, proj.inf, policy);
      IdleHasNoPolicy(proj.State(), proj.model, proj.lay, proj.inf);
      if proj.active.None? { IdleSenseIsKept(h, overlay.value); }
      verified := VerifyOverlayClean();
    }

    /** Apply, then roll back: a clean rollback restores everything. */
    method OverlayRoundTrip(o: CompiledOverlay) returns (st: Status, outcome: Outcome, verified: Status)
      requires Apart() && Synced()
      requires named(o.compilation) == LaidAll(named(o.base), o.operations)
      modifies this, proj.highs, proj.colMap, proj.rowMap, proj`varBounds, proj`rowBounds, proj`active
      ensures st.Failed? && st != NATIVE_FAILURE ==> old(current) != Some(o.base) || !Accepts(o, proj.model)
      ensures st.Ok? && outcome.Clean? ==>
        && verified.Ok? && health == old(health) && Synced()
        && Restored(old(proj.State()), proj.State())
        && current == old(current) && policy == old(policy)
      ensures st.Ok? && outcome.Clean? ==>
        var was, left := old(proj.highs.m.sense), SensesShown(o.operations, proj.model, old(proj.highs.m.sense));
        proj.State() == old(proj.State()) <==> old(proj.active).Some? || left == was
      ensures st.Ok? && !outcome.Clean? ==> outcome == Uncertain(NativeCall) && health == NeedsRebuild
    {
      hide Represents, Laying, LaidAll, Accepts, SensesShown, Records;
      outcome, verified := NothingApplied, INVALID;
      ghost var before := proj.State();
      MapsAreSound();
      var receipt;
      st, receipt := ApplyOverlay(o);
      if st.Failed? { return; }
      outcome, verified := RollbackAndVerify(receipt, before);
    }
  }
}
