/**
 * Whole runs of a HiGHS session under the discipline its caller keeps: after a failure that may have changed what
 * is held only rebuilds, and every applied overlay is rolled back before the next delta or overlay.
 */
module Runs {
  import opened Common
  import opened BackendIr
  import opened Highs
  import opened IndexMaps
  import opened CompiledModels
  import opened NativeViews
  import opened Caching
  import opened Representing
  import opened SnapshotModels
  import opened Overlaying
  import opened Rollbacks
  import opened Sessions
  import opened Meanings

  datatype Command =
    | Rebuild(snapshot: BackendSnapshot)
    | Delta(batch: BackendDelta)
    | Canonical
    | Solve
    | Apply(laid: CompiledOverlay)
    | Rollback(receipt: Receipt)
    | Verify

  /** What can be seen of a session between two commands; `under` is the base of the overlay in force, if any. */
  datatype Glimpse = Glimpse(
    health: Health, current: Option<CompilationId>, under: Option<CompilationId>, held: Held)

  /** What the compiler guarantees about a command it issues, given what its compilation ids name. */
  ghost predicate Issued(c: Command, named: CompilationId -> Model) {
    match c
    case Rebuild(s) => SnapshotValid(s) ==> ObjectivesAreUsers(ModelOf(s)) && named(s.compilation) == ModelOf(s)
    case Delta(b) =>
      var m := named(b.fromCompilation);
      && named(b.toCompilation) == ApplyAll(m, b.operations, b.originAdditions)
      && CompiledAll(b.operations, m, b.originAdditions)
      && Settled(m.policy, b.operations)
    case Apply(o) => named(o.compilation) == LaidAll(named(o.base), o.operations)
    case _ => true
  }

  /** What the caller knows: whether it holds a receipt, and whether every failure since a success was a refusal. */
  datatype Caller = Caller(applied: bool, intact: bool)

  /**
   * The caller's discipline: it looks at whether an overlay is in force, at how the commands before ended, and,
   * before it uses a receipt again, at the current compilation.
   */
  predicate MaySend(c: Command, who: Caller, current: Option<CompilationId>) {
    match c
    case Delta(_) => who.intact && !who.applied
    case Apply(_) => who.intact && !who.applied
    case Rollback(receipt) => who.applied || (who.intact && current == Some(receipt.base))
    case _ => true
  }

  /** The native model and the index maps show `v`; temporary rows have no index in the session. */
  ghost predicate ShowsWithTemporaryRows(h: Held, v: View, inf: real) {
    exists lay, rows ::
      && Shows(h.(rowMap := rows), v, lay, inf)
      && (forall r :: r in h.rowMap ==> r in rows && rows[r] == h.rowMap[r])
  }

  ghost predicate RepresentsSomehow(h: Held, m: Model, inf: real) {
    exists lay :: Represents(h, m, lay, inf)
  }

  /**
   * A ready session holds exactly the model that its current compilation id names, natively and in every cache;
   * while an overlay is in force the caches it does not touch are those of its base.
   */
  ghost predicate Faithful(g: Glimpse, named: CompilationId -> Model, inf: real) {
    g.health.Ready? ==>
      if g.under.Some? then
        && g.current.Some?
        && ShowsWithTemporaryRows(g.held, OverlayView(named(g.current.value)), inf)
        && g.held.caches == OverlaidCaches(named(g.current.value), named(g.under.value), inf)
      else RepresentsSomehow(g.held, if g.current.None? then NO_MODEL else named(g.current.value), inf)
  }

  ghost function Seen(s: HighsSession): Glimpse
    reads s, s.proj.Repr
  {
    var under := if s.laid.Some? && s.overlay.Some? then Some(s.overlay.value.base) else None;
    Glimpse(s.health, s.current, under, s.proj.State())
  }

  /** What holds between two commands. */
  ghost predicate Between(s: HighsSession, who: Caller)
    reads s, s.proj.Repr
  {
    && s.Apart() && s.Remembers()
    && (if who.applied then s.InOverlay() else (who.intact ==> s.Synced()) && (s.health.Ready? ==> who.intact))
  }

  lemma OverlayIndexesAgree(s: Overlaid, l: Overlay, m: Model, lay: Layout, inf: real)
    requires Laying(s, l, m, lay, inf)
    ensures forall r :: r in s.held.rowMap ==> r in l.rows && l.rows[r] == s.held.rowMap[r]
    ensures Shows(s.held.(rowMap := l.rows), OverlayView(l.model), l.lay, inf)
    ensures s.held.caches == OverlaidCaches(l.model, m, inf)
  {
    hide Alters, Solved, WellFormed, Captured, ReferencesResolve, OverlaidCaches, Placed, Shows;
    CompoundsMeasures(s, l.model, m, l.lay, lay, l.rows, inf);
    forall r | r in s.held.rowMap
      ensures r in l.rows && l.rows[r] == s.held.rowMap[r]
    {
      BaseRowIndex(s, l.model, m, l.lay, lay, l.rows, inf, r);
    }
  }

  lemma BetweenIsFaithful(s: HighsSession, who: Caller)
    requires Between(s, who)
    ensures Faithful(Seen(s), s.named, s.proj.inf)
  {
    hide Laying, Represents, Shows, OverlaidCaches, Records;
    if s.health.Ready? && who.applied {
      OverlayIndexesAgree(
        s.Now(s.overlay.value, s.laid.value.temporaries), s.laid.value, s.proj.model, s.proj.lay, s.proj.inf);
    }
  }

  method Send(s: HighsSession, c: Command, who: Caller) returns (who': Caller)
    requires Between(s, who) && MaySend(c, who, s.current) && Issued(c, s.named)
    modifies s, s.proj.Repr
    ensures Between(s, who')
  {
    hide Issued, Laying, Represents, Captured, Records;
    who' := who;
    match c {
      case Rebuild(snapshot) => who' := SendRebuild(s, snapshot);
      case Delta(b) => who' := SendDelta(s, b);
      case Canonical => var _ := s.SynchronizeCanonical();
      case Solve =>
      case Apply(o) => who' := SendApply(s, o);
      case Rollback(receipt) => who' := SendRollback(s, receipt, who);
      case Verify => var _ := s.VerifyOverlayClean();
    }
  }

  method SendRebuild(s: HighsSession, snapshot: BackendSnapshot) returns (who: Caller)
    requires s.Apart() && s.Remembers() && Issued(Rebuild(snapshot), s.named)
    modifies s, s.proj.Repr
    ensures Between(s, who)
  {
    hide SnapshotValid, ModelOf, Represents, Laying, Records;
    var st := s.SynchronizeRebuild(snapshot);
    who := Caller(false, st.Ok?);
  }

  /** A refused delta leaves the session as synchronized as it was, whatever its health says. */
  method SendDelta(s: HighsSession, b: BackendDelta) returns (who: Caller)
    requires Between(s, Caller(false, true)) && Issued(Delta(b), s.named)
    modifies s, s.proj.Repr
    ensures Between(s, who) && !who.applied
  {
    hide Represents, Laying, CompiledAll, ApplyAll, Settled, DeltaValid, Records, SoundColumns, Leaves, HeldAfterAll;
    s.MapsAreSound();
    var st := s.SynchronizeDelta(b);
    who := Caller(false, st != NATIVE_FAILURE);
  }

  method SendApply(s: HighsSession, o: CompiledOverlay) returns (who: Caller)
    requires Between(s, Caller(false, true)) && Issued(Apply(o), s.named)
    modifies s, s.proj.Repr
    ensures Between(s, who)
  {
    hide Represents, Laying, LaidAll, Accepts, Records, SensesShown, SoundColumns, OverlaidAll;
    s.MapsAreSound();
    var st, _ := s.ApplyOverlay(o);
    who := Caller(st.Ok?, false);
  }

  method SendRollback(s: HighsSession, receipt: Receipt, who: Caller) returns (who': Caller)
    requires Between(s, who) && (who.applied || (who.intact && s.current == Some(receipt.base)))
    modifies s, s.proj.Repr
    ensures Between(s, who')
  {
    hide Represents, Laying, Captured, Records, RolledBack, CanRollBack, SoundColumns, OneToOne;
    s.MapsAreSound();
    var outcome := s.RollbackOverlay(receipt);
    who' := Caller(false, outcome.Clean?);
  }

  /**
   * Safety over whole runs: whatever commands the caller tries, in whatever order, and whichever
   * native calls fail, every ready state of the run is faithful to its current compilation id.
   * Commands that the discipline forbids at the moment are not sent.
   */
  method Run(s: HighsSession, commands: seq<Command>) returns (ghost trace: seq<Glimpse>)
    requires Between(s, Caller(false, true))
    requires forall i :: 0 <= i < |commands| ==> Issued(commands[i], s.named)
    modifies s, s.proj.Repr
    ensures |trace| == |commands| + 1 && trace[0] == old(Seen(s)) && trace[|commands|] == Seen(s)
    ensures forall i :: 0 <= i < |trace| ==> Faithful(trace[i], s.named, s.proj.inf)
  {
    hide Issued, Faithful;
    var who := Caller(false, true);
    BetweenIsFaithful(s, who);
    trace := [Seen(s)];
    var k := 0;
    while k < |commands|
      invariant 0 <= k <= |commands| && |trace| == k + 1 && Between(s, who)
      invariant trace[0] == old(Seen(s)) && trace[k] == Seen(s)
      invariant forall i :: 0 <= i < |trace| ==> Faithful(trace[i], s.named, s.proj.inf)
    {
      if MaySend(commands[k], who, s.current) {
        who := Send(s, commands[k], who);
      }
      BetweenIsFaithful(s, who);
      trace := trace + [Seen(s)];
      k := k + 1;
    }
  }

  // ---------------------------------------------------------------- the discipline is needed

  lemma BoundIsAccepted(o: CompiledOverlay, m: Model, v: VariableId, b: Bounds)
    requires o.operations == [SetTemporaryVariableBounds(v, b)] && o.compilation != o.base && v in m.variables
    ensures Accepts(o, m) && OverlayValid(o, RegistryOf(m))
    ensures
      var om := LaidAll(m, o.operations);
      om.variables.Keys == m.variables.Keys && om.rows.Keys == m.rows.Keys
  {
    BoundIsValid(o, RegistryOf(m), v, b);
    assert o.operations[1..] == [];
    assert LaidAll(Laid(m, o.operations[0]), o.operations[1..]) == Laid(m, o.operations[0]);
  }

  lemma BoundAddsNothing(s: Overlaid, l: Overlay, m: Model, lay: Layout, inf: real)
    requires Laying(s, l, m, lay, inf)
    requires l.model.variables.Keys == m.variables.Keys && l.model.rows.Keys == m.rows.Keys
    ensures s.record.addedRows == [] && s.record.addedColumns == []
    ensures s.record.priorBounds.Keys <= m.variables.Keys
  {
    hide Compounds, Captured, ReferencesResolve;
    NothingAdded(s, l.model, m, l.lay, lay, l.rows, inf);
  }

  lemma BoundRecordsNoRow(s: Overlaid, v: VariableId, b: Bounds, ops: seq<OverlayOp>, inf: real)
    requires ops == [SetTemporaryVariableBounds(v, b)]
    ensures
      var s' := OverlaidAll(s, ops, inf);
      s'.Some? ==> s'.value.record.priorRowBounds == s.record.priorRowBounds
  {
    assert ops[1..] == [];
    var s' := OverlaidBy(s, ops[0], inf);
    if s'.Some? { assert OverlaidAll(s'.value, ops[1..], inf) == s'; }
  }

  /** What the record of a bounds-only overlay looks for is in every state of the same entities. */
  lemma BoundCanRollBack(h: Held, n: Model, m: Model, lay: Layout, inf: real, rec: OverlayRecord)
    requires Represents(h, n, lay, inf) && Records(rec, m, inf)
    requires n.variables.Keys == m.variables.Keys && n.rows.Keys == m.rows.Keys && n.policy == m.policy
    requires rec.addedRows == [] && rec.addedColumns == [] && rec.priorBounds.Keys <= m.variables.Keys
    ensures CanRollBack(h, rec)
  {
    hide Shows;
    RepresentsMeasures(h, n, lay, inf);
  }

  /** The state before the delta was the base, so the verification finds nothing to complain about after the replay. */
  lemma MatrixSurvives(
      h0: Held, lay0: Layout, h: Held, n: Model, m: Model, lay: Layout, inf: real, rec: OverlayRecord,
      r: RowId, v: VariableId, x: real)
    requires Represents(h0, m, lay0, inf) && Captured(rec, m, lay0, inf)
    requires Represents(h, n, lay, inf) && Records(rec, m, inf) && CanRollBack(h, rec)
    requires r in m.rows && v in m.variables && x != Cell(m.rows[r].coefficients, v)
    requires n == WithCoefficients(m, r, m.rows[r].coefficients[v := x])
    ensures
      var after := RolledBack(h, rec);
      LooksLike(rec, Some(rec.base), after, rec.priorPolicy) && !RepresentsSomehow(after, m, inf)
  {
    hide Represents, CanRollBack, RolledBack, WellFormed;
    ReplayKeepsTheMatrix(h, n, m, lay, inf, rec, r, v, x);
    RepresentsMeasures(h0, m, lay0, inf);
    RepresentedSizes(h0, m, lay0, inf);
    RepresentedSizes(h, n, lay, inf);
    assert |n.rows| == |n.rows.Keys| == |m.rows.Keys| == |m.rows|;
  }

  /** Applying an overlay that bounds one variable, and the rollback it is meant to have. */
  method BoundAndBack(s: HighsSession, o: CompiledOverlay, v: VariableId, b: Bounds)
    returns (applied: Status, first: Outcome, receipt: Receipt)
    requires Between(s, Caller(false, true)) && s.health.Ready? && s.current == Some(o.base)
    requires o.operations == [SetTemporaryVariableBounds(v, b)] && o.compilation != o.base
    requires Issued(Apply(o), s.named) && v in s.proj.model.variables
    modifies s, s.proj.Repr
    ensures s.proj.model == old(s.proj.model) && s.revision == old(s.revision)
    ensures applied.Failed? ==> applied == NATIVE_FAILURE
    ensures receipt == Receipt(o.overlay, o.base, o.compilation)
    ensures applied.Ok? && !first.Clean? ==> first == Uncertain(NativeCall)
    ensures applied.Ok? && first.Clean? ==>
      && Between(s, Caller(false, true)) && s.health.Ready? && s.current == Some(o.base)
      && s.overlay.Some? && receipt.base == o.base && Matches(s.overlay.value, receipt)
      && Captured(s.overlay.value, s.proj.model, s.proj.lay, s.proj.inf)
      && s.overlay.value.addedRows == [] && s.overlay.value.addedColumns == []
      && s.overlay.value.priorBounds.Keys <= s.proj.model.variables.Keys
      && s.overlay.value.priorRowBounds == map[]
  {
    hide Represents, Laying, Accepts, OverlayValid, LaidAll, Captured, Records, RolledBack, CanRollBack, SensesShown,
      OverlaidAll;
    BoundIsAccepted(o, s.proj.model, v, b);
    BoundRecordsNoRow(s.Begun(o), v, b, o.operations, s.proj.inf);
    first := NothingApplied;
    s.MapsAreSound();
    applied, receipt := s.ApplyOverlay(o);
    if applied.Failed? { return; }
    s.MapsAreSound();
    BoundAddsNothing(
      s.Now(s.overlay.value, s.laid.value.temporaries), s.laid.value, s.proj.model, s.proj.lay, s.proj.inf);
    first := s.RollbackOverlay(receipt);
  }

  /** The outcomes of the history below. */
  datatype Replay = Replay(applied: Status, first: Outcome, moved: Status, second: Outcome, verified: Status)

  /**
   * A receipt used twice with a delta in between: an overlay bounds one variable and is rolled back, a delta
   * writes one coefficient, and the receipt is sent again. Unless a native call fails, the session ends ready
   * and verified, names the base, and holds the delta's matrix.
   */
  method ReplayedReceipt(
      s: HighsSession, o: CompiledOverlay, d: BackendDelta, v: VariableId, b: Bounds, r: RowId, x: real)
    returns (seen: Replay)
    requires Between(s, Caller(false, true)) && s.health.Ready? && s.current == Some(o.base)
    requires o.operations == [SetTemporaryVariableBounds(v, b)] && o.compilation != o.base
    requires Issued(Apply(o), s.named)
    requires DeltaAccepted(s.current, s.revision, RegistryOf(s.named(o.base)), d) && Issued(Delta(d), s.named)
    requires d.operations == [SetLinearCoefficient(r, v, x)]
    requires v in s.proj.model.variables && r in s.proj.model.rows
    requires x != Cell(s.proj.model.rows[r].coefficients, v)
    modifies s, s.proj.Repr
    ensures
      || seen.applied == NATIVE_FAILURE || seen.first == Uncertain(NativeCall) || seen.moved == NATIVE_FAILURE
      || seen.second == Uncertain(NativeCall)
      || (&& seen.second.Clean? && seen.verified.Ok? && s.health.Ready? && s.current == Some(o.base)
          && !RepresentsSomehow(s.proj.State(), s.named(o.base), s.proj.inf))
  {
    hide Represents, Laying, Captured, Records, RolledBack, CanRollBack, DeltaValid, CompiledAll, ApplyAll, Settled,
      RegistryOf, LaidAll, HeldAfterAll, SoundColumns, OneToOne, Leaves, TrackedPolicy, OpValid;
    seen := Replay(INVALID, NothingApplied, INVALID, NothingApplied, INVALID);
    ghost var m := s.proj.model;
    OneCellDelta(m, d.operations, d.originAdditions, r, v, x);
    var applied, first, receipt := BoundAndBack(s, o, v, b);
    seen := seen.(applied := applied, first := first);
    if applied.Failed? || !first.Clean? { return; }
    ghost var record, h0, lay0 := s.overlay.value, s.proj.State(), s.proj.lay;
    s.SyncedMeasures();
    var moved := s.SynchronizeDelta(d);
    seen := seen.(moved := moved);
    if moved.Failed? { return; }
    ghost var h, n := s.proj.State(), s.proj.model;
    BoundCanRollBack(h, n, m, s.proj.lay, s.proj.inf, record);
    SyncedMeasuresMaps(h, n, s.proj.lay, s.proj.inf);
    var second := s.RollbackOverlay(receipt);
    seen := seen.(second := second);
    if !second.Clean? { return; }
    MatrixSurvives(h0, lay0, h, n, m, s.proj.lay, s.proj.inf, record, r, v, x);
    var verified := s.VerifyOverlayClean();
    seen := seen.(verified := verified);
  }

  lemma OneRowBoundDelta(m: Model, ops: seq<BackendOp>, origins: Origins, r: RowId, c: Bounds)
    requires ops == [SetLinearRowBounds(r, c)] && r in m.rows
    ensures ApplyAll(m, ops, origins) == m.(rows := m.rows[r := m.rows[r].(bounds := c)])
    ensures forall i :: 0 <= i < |ops| ==> PolicyRepresentable(ops[i])
  {
    assert ops[1..] == [];
    var after := CompiledModels.Apply(m, ops[0], origins);
    assert ApplyAll(after, ops[1..], origins) == after;
  }

  lemma RowBoundsStay(h: Held, rec: OverlayRecord)
    requires rec.addedRows == [] && rec.priorRowBounds == map[]
    ensures RolledBack(h, rec).caches.rowBounds == h.caches.rowBounds
  {
    hide AllWritten, PolicyShown, WithoutColumns, WithoutRows;
    PolicyKeepsMaps(RowsDeleted(BoundsPutBack(h, rec), rec), rec.priorPolicy);
    assert h.caches.rowBounds + map[] == h.caches.rowBounds;
  }

  /** A replay of a receipt that recorded no row leaves the row bounds of the delta, which the base did not have. */
  lemma RowBoundIsNoticed(
      h0: Held, lay0: Layout, h: Held, n: Model, m: Model, lay: Layout, inf: real, rec: OverlayRecord,
      r: RowId, c: Bounds, x: real)
    requires Represents(h0, m, lay0, inf) && Captured(rec, m, lay0, inf) && Represents(h, n, lay, inf)
    requires rec.addedRows == [] && rec.priorRowBounds == map[] && r in m.rows
    requires n == m.(rows := m.rows[r := m.rows[r].(bounds := c)])
    requires -inf < x < inf && Within(c, x) != Within(m.rows[r].bounds, x)
    ensures RolledBack(h, rec).caches.rowBounds != rec.baseRowBounds
  {
    hide Represents, WellFormed, NormalizeBounds, Within, RolledBack;
    RangeMeans(c, inf, x);
    RangeMeans(m.rows[r].bounds, inf, x);
    RowBoundsStay(h, rec);
    RepresentsMeasures(h, n, lay, inf);
    BoundsAreCached(n, inf);
    assert RowBoundsOf(n.rows, inf)[r] == NormalizeBounds(c, inf);
    assert RowBoundsOf(m.rows, inf)[r] == NormalizeBounds(m.rows[r].bounds, inf);
  }

  /**
   * What the verification is for: the same history with a delta that moves a row bound. Unless a native call fails the
   * replayed rollback is clean again, and the verification refuses what it left and asks for a rebuild.
   */
  method ReplayedRowBound(
      s: HighsSession, o: CompiledOverlay, d: BackendDelta, v: VariableId, b: Bounds, r: RowId, c: Bounds,
      ghost x: real)
    returns (seen: Replay)
    requires Between(s, Caller(false, true)) && s.health.Ready? && s.current == Some(o.base)
    requires o.operations == [SetTemporaryVariableBounds(v, b)] && o.compilation != o.base
    requires Issued(Apply(o), s.named)
    requires DeltaAccepted(s.current, s.revision, RegistryOf(s.named(o.base)), d) && Issued(Delta(d), s.named)
    requires d.operations == [SetLinearRowBounds(r, c)]
    requires v in s.proj.model.variables && r in s.proj.model.rows
    requires -s.proj.inf < x < s.proj.inf && Within(c, x) != Within(s.proj.model.rows[r].bounds, x)
    modifies s, s.proj.Repr
    ensures
      || seen.applied == NATIVE_FAILURE || seen.first == Uncertain(NativeCall) || seen.moved == NATIVE_FAILURE
      || seen.second == Uncertain(NativeCall)
      || (seen.second.Clean? && seen.verified.Failed? && s.health == NeedsRebuild)
  {
    hide Represents, Laying, Captured, Records, RolledBack, CanRollBack, DeltaValid, CompiledAll, ApplyAll, Settled,
      RegistryOf, LaidAll, HeldAfterAll, SoundColumns, OneToOne, Leaves, TrackedPolicy, OpValid, Within;
    seen := Replay(INVALID, NothingApplied, INVALID, NothingApplied, INVALID);
    ghost var m := s.proj.model;
    OneRowBoundDelta(m, d.operations, d.originAdditions, r, c);
    var applied, first, receipt := BoundAndBack(s, o, v, b);
    seen := seen.(applied := applied, first := first);
    if applied.Failed? || !first.Clean? { return; }
    ghost var record, h0, lay0 := s.overlay.value, s.proj.State(), s.proj.lay;
    s.SyncedMeasures();
    var moved := s.SynchronizeDelta(d);
    seen := seen.(moved := moved);
    if moved.Failed? { return; }
    ghost var h, n := s.proj.State(), s.proj.model;
    BoundCanRollBack(h, n, m, s.proj.lay, s.proj.inf, record);
    SyncedMeasuresMaps(h, n, s.proj.lay, s.proj.inf);
    var second := s.RollbackOverlay(receipt);
    seen := seen.(second := second);
    if !second.Clean? { return; }
    RowBoundIsNoticed(h0, lay0, h, n, m, s.proj.lay, s.proj.inf, record, r, c, x);
    var verified := s.VerifyOverlayClean();
    seen := seen.(verified := verified);
  }

  /**
   * The receipt of an earlier overlay of the same base, sent while a later one is in force: nothing held changes, the
   * outcome is uncertain and a rebuild is asked for.
   */
  method StaleReceipt(s: HighsSession, o: CompiledOverlay, later: CompiledOverlay, v: VariableId, b: Bounds, c: Bounds)
    returns (applied: Status, first: Outcome, again: Status, stale: Outcome, ghost held: Held)
    requires Between(s, Caller(false, true)) && s.health.Ready? && s.current == Some(o.base)
    requires later.base == o.base && (later.overlay != o.overlay || later.compilation != o.compilation)
    requires o.operations == [SetTemporaryVariableBounds(v, b)] && o.compilation != o.base
    requires later.operations == [SetTemporaryVariableBounds(v, c)] && later.compilation != later.base
    requires Issued(Apply(o), s.named) && Issued(Apply(later), s.named) && v in s.proj.model.variables
    modifies s, s.proj.Repr
    ensures
      || applied == NATIVE_FAILURE || first == Uncertain(NativeCall) || again == NATIVE_FAILURE
      || (&& again.Ok? && stale == Uncertain(InvalidInput) && s.health == NeedsRebuild
          && s.InOverlay() && s.current == Some(later.compilation) && s.proj.State() == held)
  {
    hide Represents, Laying, Accepts, OverlayValid, LaidAll, Captured, Records, RolledBack, CanRollBack, SensesShown,
      OverlaidAll;
    again, stale, held := INVALID, NothingApplied, s.proj.State();
    BoundIsAccepted(later, s.proj.model, v, c);
    var receipt;
    applied, first, receipt := BoundAndBack(s, o, v, b);
    if applied.Failed? || !first.Clean? { return; }
    s.MapsAreSound();
    var latest;
    again, latest := s.ApplyOverlay(later);
    if again.Failed? { return; }
    s.MapsAreSound();
    held := s.proj.State();
    stale := s.RollbackOverlay(receipt);
  }

  lemma OneCellDelta(m: Model, ops: seq<BackendOp>, origins: Origins, r: RowId, v: VariableId, x: real)
    requires ops == [SetLinearCoefficient(r, v, x)] && r in m.rows
    ensures ApplyAll(m, ops, origins) == WithCoefficients(m, r, m.rows[r].coefficients[v := x])
    ensures forall i :: 0 <= i < |ops| ==> PolicyRepresentable(ops[i])
  {
    assert ops[1..] == [];
    assert ApplyAll(CompiledModels.Apply(m, ops[0], origins), ops[1..], origins) ==
      CompiledModels.Apply(m, ops[0], origins);
  }

  /**
   * A delta on a torn session: a delta removes a variable and its native call fails, then a delta from the same base
   * bounds another variable. The guards accept the second one, and unless its native call fails too the session
   * ends ready and names a target that nothing it holds can be.
   */
  method DeltaOnTornSession(
      s: HighsSession, d: BackendDelta, next: BackendDelta, v: VariableId, w: VariableId, b: Bounds)
    returns (failed: Status, moved: Status)
    requires Between(s, Caller(false, true)) && s.current.Some?
    requires Issued(Delta(d), s.named) && DeltaAccepted(s.current, s.revision, RegistryOf(s.proj.model), d)
    requires Issued(Delta(next), s.named) && DeltaAccepted(s.current, s.revision, RegistryOf(s.proj.model), next)
    requires d.operations == [RemoveVariable(v)] && next.operations == [SetVariableBounds(w, b)] && v != w
    modifies s, s.proj.Repr
    ensures failed.Ok? || failed == NATIVE_FAILURE
    ensures failed == NATIVE_FAILURE ==> moved.Ok? || moved == NATIVE_FAILURE
    ensures failed == NATIVE_FAILURE && moved.Ok? ==>
      && s.health.Ready? && s.current == Some(next.toCompilation)
      && !RepresentsSomehow(s.proj.State(), s.named(next.toCompilation), s.proj.inf)
  {
    hide Represents, Settled, CompiledAll, ApplyAll, HeldAfterAll, Torn, SoundColumns, OpsValid;
    ghost var m, h := s.proj.model, s.proj.State();
    moved := INVALID;
    s.SyncedMeasures();
    OneOpIsValid(d.operations, RegistryOf(m), d.originAdditions);
    OneOpIsValid(next.operations, RegistryOf(m), next.originAdditions);
    failed := s.SynchronizeDelta(d);
    if failed.Ok? { return; }
    ghost var torn := s.proj.State();
    RemovalTears(h, v, d.operations, d.originAdditions, s.proj.inf, torn);
    OneOpIsValid(next.operations, HeldRegistry(torn), next.originAdditions);
    moved := s.SynchronizeDelta(next);
    BoundMissesVariable(torn, m, v, w, b, next.operations, next.originAdditions, s.proj.inf);
  }

  lemma OverrideIsAccepted(o: CompiledOverlay, m: Model, id: ObjectiveId)
    requires o.operations == [OverridePolicy(Single(id))] && o.compilation != o.base && id in m.objectives
    ensures Accepts(o, m)
  {
    assert o.operations[1..] == [];
    var op, present := o.operations[0], RegistryOf(m);
    assert OverlayOpsValid(o.operations[1..], OverlayRegistered(op, present), o.overlay, o.originAdditions);
    assert AllAppliable(o.operations[1..], m.rows.Keys, TemporariesAfter(op, {}));
  }

  /**
   * An idle session on which a clean and verified round trip changes the native model: no objective is active and the
   * native sense is to minimize, and an overlay shows an objective that is to be maximized.
   */
  method SenseIsLeftBehind(s: HighsSession, o: CompiledOverlay, id: ObjectiveId)
    returns (applied: Status, outcome: Outcome, verified: Status)
    requires Between(s, Caller(false, true)) && s.health.Ready? && s.current == Some(o.base)
    requires o.operations == [OverridePolicy(Single(id))] && o.compilation != o.base && Issued(Apply(o), s.named)
    requires id in s.proj.model.objectives && s.proj.model.objectives[id].sense == Maximize
    requires s.proj.active.None? && s.proj.highs.m.sense == Minimize
    modifies s, s.proj.Repr
    ensures
      || applied == NATIVE_FAILURE || outcome == Uncertain(NativeCall)
      || (&& applied.Ok? && outcome.Clean? && verified.Ok? && s.health.Ready? && s.current == Some(o.base)
          && s.proj.State() != old(s.proj.State()))
  {
    hide Represents, Laying, Accepts, LaidAll, SensesShown, Records;
    OverrideIsAccepted(o, s.proj.model, id);
    ShownSenseStays(s.proj.model, id, Minimize);
    applied, outcome, verified := s.OverlayRoundTrip(o);
  }
}
