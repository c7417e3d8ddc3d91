/** What the fingerprint does not see: ids, the order of the cell map, and data. */
module FingerprintInvariance {
  import opened Sorting
  import opened Deltas
  import opened Fnv1a
  import opened Fingerprints

  // ---------------------------------------------------------------- renaming

  datatype Renaming = Renaming(vars: nat -> nat, cons: nat -> nat, objs: nat -> nat, params: nat -> nat)

  ghost predicate Injective(f: nat -> nat) {
    forall a, b :: f(a) == f(b) ==> a == b
  }

  ghost predicate KeepsIdsApart(r: Renaming) {
    Injective(r.vars) && Injective(r.cons) && Injective(r.objs) && Injective(r.params)
  }

  function RenamedExpr(e: Expr, params: nat -> nat): Expr {
    match e
    case Constant(_) => e
    case Param(p) => Param(params(p))
    case Add(l, r) => Add(RenamedExpr(l, params), RenamedExpr(r, params))
    case Sub(l, r) => Sub(RenamedExpr(l, params), RenamedExpr(r, params))
    case Mul(l, r) => Mul(RenamedExpr(l, params), RenamedExpr(r, params))
    case Div(l, r) => Div(RenamedExpr(l, params), RenamedExpr(r, params))
    case Neg(x) => Neg(RenamedExpr(x, params))
  }

  function RenamedCell(c: CellEntry, r: Renaming): CellEntry {
    var target := match c.target
      case OfConstraint(con) => OfConstraint(r.cons(con))
      case OfObjective(obj) => OfObjective(r.objs(obj));
    c.(target := target, variable := r.vars(c.variable), expr := RenamedExpr(c.expr, r.params))
  }

  /** The same model under other ids, entity vectors in the same order. */
  function Renamed(s: ModelSnapshot, r: Renaming): ModelSnapshot {
    s.(variables := seq(|s.variables|,
      i requires 0 <= i < |s.variables| => s.variables[i].(id := r.vars(s.variables[i].id))),
       constraints := seq(|s.constraints|,
         i requires 0 <= i < |s.constraints| => s.constraints[i].(id := r.cons(s.constraints[i].id))),
       objectives := seq(|s.objectives|,
         i requires 0 <= i < |s.objectives| => s.objectives[i].(id := r.objs(s.objectives[i].id))),
       parameters := seq(|s.parameters|,
         i requires 0 <= i < |s.parameters| => s.parameters[i].(id := r.params(s.parameters[i].id))),
       cells := seq(|s.cells|, i requires 0 <= i < |s.cells| => RenamedCell(s.cells[i], r)))
  }

  function Mapped(ids: seq<nat>, f: nat -> nat): seq<nat> {
    seq(|ids|, i requires 0 <= i < |ids| => f(ids[i]))
  }

  lemma {:induction false} RenamedOrdinal(ids: seq<nat>, f: nat -> nat, id: nat)
    requires |ids| < WORDS && Injective(f)
    ensures OrdinalOf(Mapped(ids, f), f(id)) == OrdinalOf(ids, id)
  {
    if |ids| != 0 {
      var k := |ids| - 1;
      RenamedOrdinal(ids[..k], f, id);
      assert Mapped(ids, f)[..k] == Mapped(ids[..k], f);
    }
  }

  lemma {:induction false} RenamedExprOrdinals(e: Expr, ids: seq<nat>, f: nat -> nat)
    requires |ids| < WORDS && Injective(f)
    ensures OrdinalExpr(RenamedExpr(e, f), Mapped(ids, f)) == OrdinalExpr(e, ids)
  {
    match e {
      case Constant(_) =>
      case Param(p) => RenamedOrdinal(ids, f, p);
      case Neg(x) => RenamedExprOrdinals(x, ids, f);
      case _ =>
        RenamedExprOrdinals(e.left, ids, f);
        RenamedExprOrdinals(e.right, ids, f);
    }
  }

  /** Keyed cells with every coefficient renamed; their sort keys stay. */
  function RenamedKeyed(cells: seq<OrdCell>, f: nat -> nat): (r: seq<OrdCell>)
    ensures |r| == |cells| && forall i :: 0 <= i < |cells| ==> r[i] == cells[i].(expr := RenamedExpr(cells[i].expr, f))
  {
    seq(|cells|, i requires 0 <= i < |cells| => cells[i].(expr := RenamedExpr(cells[i].expr, f)))
  }

  lemma {:induction false} InsertRenamed(sorted: seq<OrdCell>, x: OrdCell, f: nat -> nat)
    ensures RenamedKeyed(Insert(sorted, x, CellOrder), f)
      == Insert(RenamedKeyed(sorted, f), x.(expr := RenamedExpr(x.expr, f)), CellOrder)
  {
    if |sorted| == 0 {
      assert RenamedKeyed(sorted, f) == [];
    } else {
      var k := |sorted| - 1;
      InsertRenamed(sorted[..k], x, f);
      assert RenamedKeyed(sorted, f)[..k] == RenamedKeyed(sorted[..k], f);
      InsertLength(sorted[..k], x, CellOrder);
    }
  }

  lemma {:induction false} SortRenamed(cells: seq<OrdCell>, f: nat -> nat)
    ensures StableSort(RenamedKeyed(cells, f), CellOrder) == RenamedKeyed(StableSort(cells, CellOrder), f)
  {
    if |cells| != 0 {
      var k := |cells| - 1;
      SortRenamed(cells[..k], f);
      assert RenamedKeyed(cells, f)[..k] == RenamedKeyed(cells[..k], f);
      InsertRenamed(StableSort(cells[..k], CellOrder), cells[k], f);
    }
  }

  lemma RenamedIds(s: ModelSnapshot, r: Renaming)
    ensures VarIds(Renamed(s, r)) == Mapped(VarIds(s), r.vars) && ConIds(Renamed(s, r)) == Mapped(ConIds(s), r.cons)
    ensures ObjIds(Renamed(s, r)) == Mapped(ObjIds(s), r.objs)
    ensures ParamIds(Renamed(s, r)) == Mapped(ParamIds(s), r.params)
  {
  }

  lemma KeyedRenamed(s: ModelSnapshot, r: Renaming)
    requires InMemory(s) && KeepsIdsApart(r)
    ensures InMemory(Renamed(s, r)) && KeyedCells(Renamed(s, r)) == RenamedKeyed(KeyedCells(s), r.params)
  {
    RenamedIds(s, r);
    assert |VarIds(s)| < WORDS && |ConIds(s)| < WORDS && |ObjIds(s)| < WORDS;
    hide VarIds, ConIds, ObjIds, Mapped;
    forall i | 0 <= i < |s.cells|
      ensures KeyedCells(Renamed(s, r))[i] == RenamedKeyed(KeyedCells(s), r.params)[i]
    {
      var c := s.cells[i];
      RenamedOrdinal(VarIds(s), r.vars, c.variable);
      match c.target {
        case OfConstraint(con) => RenamedOrdinal(ConIds(s), r.cons, con);
        case OfObjective(obj) => RenamedOrdinal(ObjIds(s), r.objs, obj);
      }
    }
  }

  lemma OrdinalCellsRenamed(cells: seq<OrdCell>, ids: seq<nat>, f: nat -> nat)
    requires |ids| < WORDS && Injective(f)
    ensures OrdinalCells(RenamedKeyed(cells, f), Mapped(ids, f)) == OrdinalCells(cells, ids)
  {
    forall i | 0 <= i < |cells|
      ensures OrdinalCells(RenamedKeyed(cells, f), Mapped(ids, f))[i] == OrdinalCells(cells, ids)[i]
    {
      RenamedExprOrdinals(cells[i].expr, ids, f);
    }
  }

  /** The fingerprint does not depend on how entities are identified. */
  lemma RenamingKeepsFingerprint(s: ModelSnapshot, r: Renaming)
    requires InMemory(s) && KeepsIdsApart(r)
    ensures InMemory(Renamed(s, r)) && Normalized(Renamed(s, r)) == Normalized(s)
    ensures Fingerprint(Renamed(s, r)) == Fingerprint(s)
  {
    KeyedRenamed(s, r);
    SortRenamed(KeyedCells(s), r.params);
    RenamedIds(s, r);
    OrdinalCellsRenamed(StableSort(KeyedCells(s), CellOrder), ParamIds(s), r.params);
    hide KeyedCells, StableSort, OrdinalCells, RenamedKeyed, ParamIds, Mapped, Encode;
  }

  // ---------------------------------------------------------------- the order of the cell map

  /** No two cells have the same target and variable ordinals. */
  ghost predicate DistinctOrder(s: ModelSnapshot)
    requires InMemory(s)
  {
    forall i, j :: 0 <= i < j < |s.cells| ==> CellOrder(KeyedCells(s)[i]) != CellOrder(KeyedCells(s)[j])
  }

  /** `p` lists each index below `n` once. */
  ghost predicate Permutes(p: seq<nat>, n: nat) {
    && |p| == n && (forall i :: 0 <= i < n ==> p[i] < n)
    && (forall i, j :: 0 <= i < j < n ==> p[i] != p[j])
    && (forall k :: 0 <= k < n ==> k in p)
  }

  lemma {:induction false} AtMostOneWithKey(cells: seq<OrdCell>, i: nat, k: nat)
    requires forall a, b :: 0 <= a < b < |cells| ==> CellOrder(cells[a]) != CellOrder(cells[b])
    requires i < |cells| && CellOrder(cells[i]) == k
    ensures WithKey(cells, CellOrder, k) == [cells[i]]
  {
    var n := |cells| - 1;
    if i < n {
      AtMostOneWithKey(cells[..n], i, k);
    } else {
      NoneWithKey(cells[..n], k);
    }
  }

  lemma {:induction false} NoneWithKey(cells: seq<OrdCell>, k: nat)
    requires forall a :: 0 <= a < |cells| ==> CellOrder(cells[a]) != k
    ensures WithKey(cells, CellOrder, k) == []
  {
    if |cells| != 0 { NoneWithKey(cells[..|cells| - 1], k); }
  }

  lemma PermutedWithKey(a: seq<OrdCell>, b: seq<OrdCell>, p: seq<nat>, k: nat)
    requires |a| == |b| && Permutes(p, |a|) && forall i :: 0 <= i < |a| ==> b[i] == a[p[i]]
    requires forall i, j :: 0 <= i < j < |a| ==> CellOrder(a[i]) != CellOrder(a[j])
    ensures WithKey(b, CellOrder, k) == WithKey(a, CellOrder, k)
  {
    assert forall i, j :: 0 <= i < j < |b| ==> CellOrder(b[i]) != CellOrder(b[j]);
    if i :| 0 <= i < |a| && CellOrder(a[i]) == k {
      AtMostOneWithKey(a, i, k);
      assert i in p;
      var j :| 0 <= j < |p| && p[j] == i;
      AtMostOneWithKey(b, j, k);
    } else {
      NoneWithKey(a, k);
      NoneWithKey(b, k);
    }
  }

  /** Permuting cells with distinct keys changes nothing. */
  lemma CellOrderIsIrrelevant(s: ModelSnapshot, t: ModelSnapshot, p: seq<nat>)
    requires InMemory(s) && DistinctOrder(s) && Permutes(p, |s.cells|)
    requires t == s.(cells := seq(|s.cells|, i requires 0 <= i < |s.cells| => s.cells[p[i]]))
    ensures InMemory(t) && Normalized(t) == Normalized(s) && Fingerprint(t) == Fingerprint(s)
  {
    var a, b := KeyedCells(s), KeyedCells(t);
    assert VarIds(t) == VarIds(s) && ConIds(t) == ConIds(s) && ObjIds(t) == ObjIds(s) && ParamIds(t) == ParamIds(s);
    assert forall i :: 0 <= i < |a| ==> b[i] == a[p[i]];
    var x, y := StableSort(a, CellOrder), StableSort(b, CellOrder);
    forall k
      ensures WithKey(x, CellOrder, k) == WithKey(y, CellOrder, k)
    {
      PermutedWithKey(a, b, p, k);
      StableSortIsStable(a, CellOrder, k);
      StableSortIsStable(b, CellOrder, k);
    }
    StableSortIsStable(a, CellOrder, 0);
    StableSortIsStable(b, CellOrder, 0);
    StableSortIsUnique(x, y, CellOrder);
    hide WithKey, SortedBy, Encode, StableSort, KeyedCells;
  }

  lemma {:induction false} KnownOrdinal(ids: seq<nat>, id: nat)
    requires |ids| < WORDS && id in ids
    ensures OrdinalOf(ids, id) < |ids| && ids[OrdinalOf(ids, id)] == id
  {
    var k := |ids| - 1;
    if ids[k] != id { KnownOrdinal(ids[..k], id); }
  }

  lemma CellOrderIsInjective(a: OrdCell, b: OrdCell)
    requires CellOrder(a) == CellOrder(b)
    ensures a.kind == b.kind && a.target == b.target && a.variable == b.variable
  {
    assert a.kind * WORDS + a.target == b.kind * WORDS + b.target;
  }

  /** Every cell refers to listed entities, and no two cells have the same key. */
  ghost predicate CellsAreKeyed(s: ModelSnapshot) {
    && (forall i :: 0 <= i < |s.cells| ==> s.cells[i].variable in VarIds(s))
    && (forall i :: 0 <= i < |s.cells| ==>
          match s.cells[i].target { case OfConstraint(c) => c in ConIds(s) case OfObjective(o) => o in ObjIds(s) })
    && (forall i, j :: 0 <= i < j < |s.cells| ==>
          s.cells[i].target != s.cells[j].target || s.cells[i].variable != s.cells[j].variable)
  }

  /** Distinct cell keys of listed entities have distinct ordinals. */
  lemma KeyedCellsAreDistinct(s: ModelSnapshot)
    requires InMemory(s) && CellsAreKeyed(s)
    ensures DistinctOrder(s)
  {
    forall i, j | 0 <= i < j < |s.cells| && CellOrder(KeyedCells(s)[i]) == CellOrder(KeyedCells(s)[j])
      ensures false
    {
      CellOrderIsInjective(KeyedCells(s)[i], KeyedCells(s)[j]);
      var a, b := s.cells[i], s.cells[j];
      KnownOrdinal(VarIds(s), a.variable);
      KnownOrdinal(VarIds(s), b.variable);
      TargetKnown(a, s);
      TargetKnown(b, s);
    }
  }

  lemma TargetKnown(c: CellEntry, s: ModelSnapshot)
    requires InMemory(s)
    requires match c.target { case OfConstraint(con) => con in ConIds(s) case OfObjective(obj) => obj in ObjIds(s) }
    ensures match c.target {
      case OfConstraint(con) => Keyed(c, s).target < |ConIds(s)| && ConIds(s)[Keyed(c, s).target] == con &&
          Keyed(c, s).kind == 0
      case OfObjective(obj) => Keyed(c, s).target < |ObjIds(s)| && ObjIds(s)[Keyed(c, s).target] == obj &&
          Keyed(c, s).kind == 1
    }
  {
    match c.target {
      case OfConstraint(con) => KnownOrdinal(ConIds(s), con);
      case OfObjective(obj) => KnownOrdinal(ObjIds(s), obj);
    }
  }

  // ---------------------------------------------------------------- data

  /** Two snapshots that differ in revision, parameter values and evaluated coefficients only. */
  ghost predicate SameStructure(s: ModelSnapshot, t: ModelSnapshot) {
    && t.variables == s.variables && t.constraints == s.constraints && t.objectives == s.objectives
    && ParamIds(t) == ParamIds(s) && |t.cells| == |s.cells|
    && forall i :: 0 <= i < |s.cells| ==> t.cells[i] == s.cells[i].(evaluated := t.cells[i].evaluated)
  }

  lemma DataIsInvisible(s: ModelSnapshot, t: ModelSnapshot)
    requires InMemory(s) && SameStructure(s, t)
    ensures InMemory(t) && Normalized(t) == Normalized(s) && Fingerprint(t) == Fingerprint(s)
  {
    assert |ParamIds(t)| == |ParamIds(s)|;
    assert VarIds(t) == VarIds(s) && ConIds(t) == ConIds(s) && ObjIds(t) == ObjIds(s);
    assert KeyedCells(t) == KeyedCells(s);
  }
}
