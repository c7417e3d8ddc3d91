/** What the fingerprint does see: equal streams come from snapshots that are equal up to ids, cell order and data. */
module FingerprintStructures {
  import opened Common
  import opened Sorting
  import opened Deltas
  import opened Fnv1a
  import opened Fingerprints
  import opened FingerprintInvariance
  import opened Decoding

  /** Every parameter of a coefficient is listed. */
  predicate ParamsListed(e: Expr, params: seq<nat>) {
    match e
    case Constant(_) => true
    case Param(p) => p in params
    case Neg(x) => ParamsListed(x, params)
    case _ => ParamsListed(e.left, params) && ParamsListed(e.right, params)
  }

  /** No family lists an id twice, cells have keys of their own over listed entities, and parameters are listed. */
  ghost predicate WellListed(s: ModelSnapshot) {
    && InMemory(s) && CellsAreKeyed(s)
    && Distinct(VarIds(s)) && Distinct(ConIds(s)) && Distinct(ObjIds(s)) && Distinct(ParamIds(s))
    && forall i :: 0 <= i < |s.cells| ==> ParamsListed(s.cells[i].expr, ParamIds(s))
  }

  // ---------------------------------------------------------------- the renaming between two id lists

  function Bound(ids: seq<nat>): nat {
    if |ids| == 0 then 0
    else
      var rest, last := Bound(ids[..|ids| - 1]), ids[|ids| - 1];
      if last < rest then rest else last + 1
  }

  lemma {:induction false} BelowBound(ids: seq<nat>)
    ensures forall i :: 0 <= i < |ids| ==> ids[i] < Bound(ids)
  {
    if |ids| != 0 { BelowBound(ids[..|ids| - 1]); }
  }

  /** Each id of `a` goes to the one at its place in `b`, all others beyond everything in `b`. */
  function Moved(a: seq<nat>, b: seq<nat>, id: nat): nat
    requires |a| == |b| < WORDS
  {
    var k := OrdinalOf(a, id);
    if id in a && k < |b| then b[k] else id + Bound(b)
  }

  lemma {:induction false} OrdinalAt(ids: seq<nat>, i: nat)
    requires |ids| < WORDS && Distinct(ids) && i < |ids|
    ensures OrdinalOf(ids, ids[i]) == i
  {
    var k := |ids| - 1;
    if i < k { OrdinalAt(ids[..k], i); }
  }

  lemma MovedAt(a: seq<nat>, b: seq<nat>, i: nat)
    requires |a| == |b| < WORDS && Distinct(a) && i < |a|
    ensures Moved(a, b, a[i]) == b[i]
  {
    OrdinalAt(a, i);
  }

  lemma MovedApart(a: seq<nat>, b: seq<nat>, x: nat, y: nat)
    requires |a| == |b| < WORDS && Distinct(a) && Distinct(b) && Moved(a, b, x) == Moved(a, b, y)
    ensures x == y
  {
    BelowBound(b);
    if x in a { KnownOrdinal(a, x); }
    if y in a { KnownOrdinal(a, y); }
  }

  /** The renaming that takes each entity of `s` to the one at its place in `t`. */
  ghost function Between(s: ModelSnapshot, t: ModelSnapshot): Renaming
    requires InMemory(s) && SameCounts(s, t)
  {
    Renaming(
      x => Moved(VarIds(s), VarIds(t), x), x => Moved(ConIds(s), ConIds(t), x),
      x => Moved(ObjIds(s), ObjIds(t), x), x => Moved(ParamIds(s), ParamIds(t), x))
  }

  predicate SameCounts(s: ModelSnapshot, t: ModelSnapshot) {
    && |s.variables| == |t.variables| && |s.constraints| == |t.constraints|
    && |s.objectives| == |t.objectives| && |s.parameters| == |t.parameters|
  }

  lemma BetweenKeepsApart(s: ModelSnapshot, t: ModelSnapshot)
    requires WellListed(s) && WellListed(t) && SameCounts(s, t)
    ensures KeepsIdsApart(Between(s, t))
  {
    var r := Between(s, t);
    forall x, y | r.vars(x) == r.vars(y)
      ensures x == y
    {
      MovedApart(VarIds(s), VarIds(t), x, y);
    }
    forall x, y | r.cons(x) == r.cons(y)
      ensures x == y
    {
      MovedApart(ConIds(s), ConIds(t), x, y);
    }
    forall x, y | r.objs(x) == r.objs(y)
      ensures x == y
    {
      MovedApart(ObjIds(s), ObjIds(t), x, y);
    }
    forall x, y | r.params(x) == r.params(y)
      ensures x == y
    {
      MovedApart(ParamIds(s), ParamIds(t), x, y);
    }
  }

  // ---------------------------------------------------------------- entities

  /** Equal ordinal entities: all data are equal, and ids go to ids. */
  lemma EntitiesCorrespond(s: ModelSnapshot, t: ModelSnapshot)
    requires WellListed(s) && WellListed(t) && Normalized(s) == Normalized(t)
    ensures SameCounts(s, t)
    ensures
      var u := Renamed(s, Between(s, t));
      t.variables == u.variables && t.constraints == u.constraints && t.objectives == u.objectives
      && ParamIds(t) == ParamIds(u)
  {
    NormalizedParts(s);
    NormalizedParts(t);
    hide Normalized, OrdinalCells, KeyedCells, StableSort, CellsAreKeyed, ParamsListed, Moved;
    var r := Between(s, t);
    var u := Renamed(s, r);
    forall i | 0 <= i < |s.variables|
      ensures t.variables[i] == u.variables[i]
    {
      MovedAt(VarIds(s), VarIds(t), i);
      assert OrdinalVariable(s.variables[i]) == OrdinalVariable(t.variables[i]);
    }
    forall i | 0 <= i < |s.constraints|
      ensures t.constraints[i] == u.constraints[i]
    {
      MovedAt(ConIds(s), ConIds(t), i);
      assert OrdinalConstraint(s.constraints[i]) == OrdinalConstraint(t.constraints[i]);
    }
    forall i | 0 <= i < |s.objectives|
      ensures t.objectives[i] == u.objectives[i]
    {
      MovedAt(ObjIds(s), ObjIds(t), i);
      assert OrdinalObjective(s.objectives[i]) == OrdinalObjective(t.objectives[i]);
    }
    forall i | 0 <= i < |s.parameters|
      ensures ParamIds(t)[i] == ParamIds(u)[i]
    {
      MovedAt(ParamIds(s), ParamIds(t), i);
    }
  }

  // ---------------------------------------------------------------- cells

  lemma {:induction false} ExprsCorrespond(e: Expr, f: Expr, a: seq<nat>, b: seq<nat>)
    requires |a| == |b| < WORDS && Distinct(a) && ParamsListed(e, a) && ParamsListed(f, b)
    requires OrdinalExpr(e, a) == OrdinalExpr(f, b)
    ensures RenamedExpr(e, x => Moved(a, b, x)) == f
  {
    match e {
      case Constant(_) =>
      case Param(p) =>
        KnownOrdinal(a, p);
        KnownOrdinal(b, f.param);
      case Neg(x) => ExprsCorrespond(x, f.inner, a, b);
      case _ =>
        ExprsCorrespond(e.left, f.left, a, b);
        ExprsCorrespond(e.right, f.right, a, b);
    }
  }

  /** The two cells have one ordinal form. */
  ghost predicate SameCell(s: ModelSnapshot, k: nat, t: ModelSnapshot, i: nat)
    requires InMemory(s) && InMemory(t) && k < |s.cells| && i < |t.cells|
  {
    var a, b := Keyed(s.cells[k], s), Keyed(t.cells[i], t);
    && a.kind == b.kind && a.target == b.target && a.variable == b.variable
    && OrdinalExpr(a.expr, ParamIds(s)) == OrdinalExpr(b.expr, ParamIds(t))
  }

  /** Every cell of `t` has a cell of `s` with its ordinal form. */
  lemma CellIsFound(s: ModelSnapshot, t: ModelSnapshot, i: nat) returns (k: nat)
    requires InMemory(s) && InMemory(t) && Normalized(s) == Normalized(t) && i < |t.cells|
    ensures k < |s.cells| && SameCell(s, k, t, i)
  {
    hide StableSort, Keyed, OrdinalExpr;
    var a, b := StableSort(KeyedCells(s), CellOrder), StableSort(KeyedCells(t), CellOrder);
    assert OrdinalCells(a, ParamIds(s)) == OrdinalCells(b, ParamIds(t));
    StableSortMembers(KeyedCells(s), CellOrder);
    StableSortMembers(KeyedCells(t), CellOrder);
    assert KeyedCells(t)[i] in b;
    var j :| 0 <= j < |b| && b[j] == KeyedCells(t)[i];
    assert OrdinalCells(a, ParamIds(s))[j] == OrdinalCells(b, ParamIds(t))[j];
    assert a[j] in KeyedCells(s);
    k :| 0 <= k < |KeyedCells(s)| && KeyedCells(s)[k] == a[j];
  }

  /** Two cells of one ordinal form are the same cell under the two namings. */
  lemma CellsCorrespond(s: ModelSnapshot, k: nat, t: ModelSnapshot, i: nat)
    requires WellListed(s) && WellListed(t) && SameCounts(s, t) && k < |s.cells| && i < |t.cells|
    requires SameCell(s, k, t, i)
    ensures t.cells[i] == RenamedCell(s.cells[k], Between(s, t)).(evaluated := t.cells[i].evaluated)
  {
    hide OrdinalExpr, RenamedExpr, ParamsListed, Distinct;
    var a, b := s.cells[k], t.cells[i];
    KnownOrdinal(VarIds(s), a.variable);
    KnownOrdinal(VarIds(t), b.variable);
    TargetKnown(a, s);
    TargetKnown(b, t);
    TargetsCorrespond(s, a, t, b);
    ExprsCorrespond(a.expr, b.expr, ParamIds(s), ParamIds(t));
  }

  lemma TargetsCorrespond(s: ModelSnapshot, a: CellEntry, t: ModelSnapshot, b: CellEntry)
    requires InMemory(s) && InMemory(t) && SameCounts(s, t)
    requires match a.target { case OfConstraint(c) => c in ConIds(s) case OfObjective(o) => o in ObjIds(s) }
    requires match b.target { case OfConstraint(c) => c in ConIds(t) case OfObjective(o) => o in ObjIds(t) }
    requires Keyed(a, s).kind == Keyed(b, t).kind && Keyed(a, s).target == Keyed(b, t).target
    ensures b.target == RenamedCell(a, Between(s, t)).target
  {
    TargetKnown(a, s);
    TargetKnown(b, t);
  }

  /** No two cells of one snapshot correspond to the same cell of the other. */
  lemma OneCellEach(s: ModelSnapshot, t: ModelSnapshot, k: nat, i: nat, j: nat)
    requires InMemory(s) && WellListed(t) && k < |s.cells| && i < |t.cells| && j < |t.cells|
    requires SameCell(s, k, t, i) && SameCell(s, k, t, j)
    ensures i == j
  {
    hide Keyed, OrdinalExpr;
    KeyedCellsAreDistinct(t);
    assert CellOrder(KeyedCells(t)[i]) == CellOrder(KeyedCells(t)[j]);
  }

  lemma SameCellBack(s: ModelSnapshot, k: nat, t: ModelSnapshot, i: nat)
    requires InMemory(s) && InMemory(t) && k < |s.cells| && i < |t.cells|
    ensures SameCell(s, k, t, i) <==> SameCell(t, i, s, k)
  {
  }

  ghost predicate Pairs(s: ModelSnapshot, t: ModelSnapshot, p: seq<nat>)
    requires InMemory(s) && InMemory(t)
  {
    |p| <= |t.cells| && forall i :: 0 <= i < |p| ==> p[i] < |s.cells| && SameCell(s, p[i], t, i)
  }

  lemma {:induction false} PairsUpTo(s: ModelSnapshot, t: ModelSnapshot, n: nat) returns (p: seq<nat>)
    requires InMemory(s) && InMemory(t) && Normalized(s) == Normalized(t) && n <= |t.cells|
    ensures |p| == n && Pairs(s, t, p)
  {
    hide Normalized, SameCell;
    if n == 0 {
      p := [];
    } else {
      var before := PairsUpTo(s, t, n - 1);
      var k := CellIsFound(s, t, n - 1);
      p := before + [k];
    }
  }

  lemma PairsPermute(s: ModelSnapshot, t: ModelSnapshot, p: seq<nat>)
    requires WellListed(s) && WellListed(t) && Normalized(s) == Normalized(t)
    requires Pairs(s, t, p) && |p| == |t.cells|
    ensures |s.cells| == |t.cells| && Permutes(p, |s.cells|)
  {
    hide Normalized, SameCell, CellsAreKeyed, ParamsListed;
    CellCounts(s, t);
    forall i, j | 0 <= i < j < |p| && p[i] == p[j]
      ensures false
    {
      OneCellEach(s, t, p[i], i, j);
    }
    forall k | 0 <= k < |s.cells|
      ensures k in p
    {
      var i := CellIsFound(t, s, k);
      SameCellBack(t, i, s, k);
      SameCellBack(s, p[i], t, i);
      OneCellEach(t, s, i, k, p[i]);
      assert p[i] == k;
    }
  }

  lemma CellCounts(s: ModelSnapshot, t: ModelSnapshot)
    requires InMemory(s) && InMemory(t) && Normalized(s) == Normalized(t)
    ensures |s.cells| == |t.cells|
  {
    StableSortLength(KeyedCells(s), CellOrder);
    StableSortLength(KeyedCells(t), CellOrder);
  }

  // ---------------------------------------------------------------- the theorem

  function Permuted(s: ModelSnapshot, p: seq<nat>): ModelSnapshot
    requires |p| == |s.cells| && forall i :: 0 <= i < |p| ==> p[i] < |s.cells|
  {
    s.(cells := seq(|s.cells|, i requires 0 <= i < |s.cells| => s.cells[p[i]]))
  }

  /** `t` is `s` with its cells permuted and its data changed: revision, parameter values, evaluated coefficients. */
  ghost predicate SameButOrder(s: ModelSnapshot, t: ModelSnapshot, p: seq<nat>) {
    Permutes(p, |s.cells|) && SameStructure(Permuted(s, p), t)
  }

  /** `t` is `s` under other ids, entity vectors in the same order, up to cell order and data. */
  ghost predicate SameUpToIds(s: ModelSnapshot, t: ModelSnapshot) {
    exists r, p :: KeepsIdsApart(r) && SameButOrder(Renamed(s, r), t, p)
  }

  lemma EqualFormsHaveOneStructure(s: ModelSnapshot, t: ModelSnapshot)
    requires WellListed(s) && WellListed(t) && Normalized(s) == Normalized(t)
    ensures SameUpToIds(s, t)
  {
    hide Normalized, SameCell, CellsAreKeyed, ParamsListed, RenamedCell, Between, Permutes;
    EntitiesCorrespond(s, t);
    BetweenKeepsApart(s, t);
    var r := Between(s, t);
    var u := Renamed(s, r);
    var p := PairsUpTo(s, t, |t.cells|);
    PairsPermute(s, t, p);
    forall i | 0 <= i < |t.cells|
      ensures t.cells[i] == u.cells[p[i]].(evaluated := t.cells[i].evaluated)
    {
      CellsCorrespond(s, p[i], t, i);
    }
    assert ParamIds(Permuted(u, p)) == ParamIds(u);
    assert SameButOrder(u, t, p);
  }

  lemma OneStructureHasEqualForms(s: ModelSnapshot, t: ModelSnapshot)
    requires WellListed(s) && InMemory(t) && SameUpToIds(s, t)
    ensures Normalized(s) == Normalized(t)
  {
    hide Normalized, Renamed, SameStructure, KeepsIdsApart;
    var r, p :| KeepsIdsApart(r) && SameButOrder(Renamed(s, r), t, p);
    var u := Renamed(s, r);
    RenamingKeepsFingerprint(s, r);
    RenamedIsOrdered(s, r);
    CellOrderIsIrrelevant(u, Permuted(u, p), p);
    DataIsInvisible(Permuted(u, p), t);
  }

  lemma RenamedIsOrdered(s: ModelSnapshot, r: Renaming)
    requires WellListed(s) && KeepsIdsApart(r)
    ensures InMemory(Renamed(s, r)) && DistinctOrder(Renamed(s, r)) && |Renamed(s, r).cells| == |s.cells|
  {
    hide CellsAreKeyed, ParamsListed, Distinct, KeyedCells, RenamedKeyed;
    KeyedRenamed(s, r);
    KeyedCellsAreDistinct(s);
  }

  /**
   * Any structural difference changes the stream, and nothing else does: two snapshots have one canonical stream if and
   * only if they are equal up to ids, the order of the cell map, and data.
   */
  lemma StreamsShowExactlyTheStructure(s: ModelSnapshot, t: ModelSnapshot)
    requires WellListed(s) && WellListed(t)
    ensures Writable(Normalized(s)) && Writable(Normalized(t))
    ensures Encode(Normalized(s)) == Encode(Normalized(t)) <==> SameUpToIds(s, t)
  {
    NormalizedIsWritable(s);
    NormalizedIsWritable(t);
    hide Normalized, Encode, WellListed, SameUpToIds, Writable;
    var a, b := Normalized(s), Normalized(t);
    if Encode(a) == Encode(b) {
      assert Encode(a) + [] == Encode(b) + [];
      EncodeIsInjective(a, b, [], []);
      EqualFormsHaveOneStructure(s, t);
    }
    if SameUpToIds(s, t) { OneStructureHasEqualForms(s, t); }
  }
}
