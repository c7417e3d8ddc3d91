/**
 * A full compilation numbers its entities from zero again, so the snapshot of an updated model names the
 * same entities by other ids than the delta did. Held states are compared across such a renaming.
 */
module Renamings {
  import opened Common
  import opened BackendIr
  import opened IndexMaps
  import opened CompiledModels
  import opened NativeViews
  import opened Caching
  import opened Representing
  import opened SnapshotModels
  import opened Projecting

  datatype Renaming = Renaming(
    variables: map<VariableId, VariableId>, rows: map<RowId, RowId>, objectives: map<ObjectiveId, ObjectiveId>)

  /** `f` matches the ids of `from` with those of `to`, one to one. */
  ghost predicate Bijects<Id(!new)>(f: map<Id, Id>, from: set<Id>, to: set<Id>) {
    && f.Keys == from
    && (forall x :: x in from ==> f[x] in to)
    && (forall x, y :: x in from && y in from && f[x] == f[y] ==> x == y)
    && (forall y :: y in to ==> exists x :: x in from && f[x] == y)
  }

  /** `b` holds for the renamed ids exactly what `a` holds. */
  ghost predicate Carries<Id(!new), T>(f: map<Id, Id>, a: map<Id, T>, b: map<Id, T>) {
    && a.Keys <= f.Keys && b.Keys <= f.Values
    && (forall x :: x in f ==> (x in a <==> f[x] in b))
    && (forall x :: x in a ==> b[f[x]] == a[x])
  }

  ghost predicate CarriesRow(f: map<VariableId, VariableId>, a: RowData, b: RowData) {
    b.bounds == a.bounds && b.user == a.user && Carries(f, a.coefficients, b.coefficients)
  }

  ghost predicate CarriesObjective(f: map<VariableId, VariableId>, a: ObjectiveData, b: ObjectiveData) {
    b.sense == a.sense && b.constant == a.constant && b.user == a.user && Carries(f, a.costs, b.costs)
  }

  ghost predicate CarriesRows(r: Renaming, a: map<RowId, RowData>, b: map<RowId, RowData>) {
    forall x :: x in a ==> x in r.rows && r.rows[x] in b && CarriesRow(r.variables, a[x], b[r.rows[x]])
  }

  ghost predicate CarriesObjectives(
      r: Renaming, a: map<ObjectiveId, ObjectiveData>, b: map<ObjectiveId, ObjectiveData>)
  {
    forall o :: o in a ==>
      o in r.objectives && r.objectives[o] in b && CarriesObjective(r.variables, a[o], b[r.objectives[o]])
  }

  function RenamedId<Id>(f: map<Id, Id>, id: Id): Id {
    if id in f then f[id] else id
  }

  function RenamedPolicy(p: Policy, f: map<ObjectiveId, ObjectiveId>): Policy {
    match p
    case NoObjective => NoObjective
    case Single(o) => Single(RenamedId(f, o))
    case Weighted(items) => Weighted(seq(|items|, i requires 0 <= i < |items| => RenamedId(f, items[i])))
    case Lexicographic(levels) => Lexicographic(seq(|levels|, i requires 0 <= i < |levels| => RenamedId(f, levels[i])))
  }

  /** `n` is `m` under other ids. */
  ghost predicate Renames(r: Renaming, m: Model, n: Model) {
    && Bijects(r.variables, m.variables.Keys, n.variables.Keys)
    && Bijects(r.rows, m.rows.Keys, n.rows.Keys)
    && Bijects(r.objectives, m.objectives.Keys, n.objectives.Keys)
    && Carries(r.variables, m.variables, n.variables)
    && CarriesRows(r, m.rows, n.rows) && CarriesObjectives(r, m.objectives, n.objectives)
    && n.policy == RenamedPolicy(m.policy, r.objectives)
  }

  // ---------------------------------------------------------------- held states

  ghost predicate MatchesVariable(a: Held, b: Held, x: VariableId, y: VariableId)
    requires Dimensioned(a) && Dimensioned(b) && x in a.colMap && y in b.colMap
  {
    && a.native.cols[a.colMap[x]] == b.native.cols[b.colMap[y]]
    && a.native.costs[a.colMap[x]] == b.native.costs[b.colMap[y]]
  }

  ghost predicate MatchesRow(f: map<VariableId, VariableId>, a: Held, b: Held, x: RowId, y: RowId)
    requires Dimensioned(a) && Dimensioned(b) && x in a.rowMap && y in b.rowMap
    requires Bijects(f, a.colMap.Keys, b.colMap.Keys)
  {
    var left, right := a.native.rows[a.rowMap[x]], b.native.rows[b.rowMap[y]];
    && left.bounds == right.bounds
    && (forall v :: v in a.colMap ==> left.coefficients[a.colMap[v]] == right.coefficients[b.colMap[f[v]]])
  }

  ghost predicate CarriesCaches(r: Renaming, a: Caches, b: Caches) {
    && Carries(r.variables, a.varBounds, b.varBounds) && Carries(r.rows, a.rowBounds, b.rowBounds)
    && Carries(r.variables, a.userVars, b.userVars) && Carries(r.rows, a.userRows, b.userRows)
    && Carries(r.objectives, a.userObjs, b.userObjs)
    && Carries(r.objectives, a.senses, b.senses) && Carries(r.objectives, a.offsets, b.offsets)
    && a.costs.Keys == r.objectives.Keys && b.costs.Keys == r.objectives.Values
    && (forall o :: o in a.costs ==> Carries(r.variables, a.costs[o], b.costs[r.objectives[o]]))
    && a.active == b.active
  }

  /**
   * Two held states agree entity by entity across a renaming, whatever their numberings: bounds, integrality,
   * active costs, matrix, offset, sense while it matters, and every cache.
   */
  ghost predicate SameUpToRenaming(r: Renaming, a: Held, b: Held) {
    && Dimensioned(a) && Dimensioned(b)
    && Bijects(r.variables, a.colMap.Keys, b.colMap.Keys) && Bijects(r.rows, a.rowMap.Keys, b.rowMap.Keys)
    && (forall v :: v in a.colMap ==> MatchesVariable(a, b, v, r.variables[v]))
    && (forall x :: x in a.rowMap ==> MatchesRow(r.variables, a, b, x, r.rows[x]))
    && |a.native.cols| == |b.native.cols| && |a.native.rows| == |b.native.rows|
    && a.native.offset == b.native.offset
    && (a.caches.active.Some? ==> a.native.sense == b.native.sense)
    && CarriesCaches(r, a.caches, b.caches)
  }

  lemma CarriesCell(f: map<VariableId, VariableId>, a: map<VariableId, real>, b: map<VariableId, real>, v: VariableId)
    requires Carries(f, a, b) && v in f
    ensures Cell(a, v) == Cell(b, f[v])
  {
  }

  lemma SurfacesMatch(r: Renaming, m: Model, n: Model)
    requires Renames(r, m, n) && WellFormed(m)
    ensures ActiveUser(m) == ActiveUser(n) && SurfaceOf(m).Some? == SurfaceOf(n).Some?
    ensures SurfaceOf(m).Some? ==>
      var s, t := SurfaceOf(m).value, SurfaceOf(n).value;
      s.sense == t.sense && s.offset == t.offset && Carries(r.variables, s.costs, t.costs)
  {
    if m.policy.Single? {
      var o := m.policy.objective;
      assert CarriesObjective(r.variables, m.objectives[o], n.objectives[r.objectives[o]]);
    }
  }

  lemma {:induction false} SameSize<Id(!new)>(f: map<Id, Id>, from: set<Id>, to: set<Id>)
    requires Bijects(f, from, to)
    ensures |from| == |to|
    decreases |from|
  {
    if from == {} {
      assert to == {};
    } else {
      var x :| x in from;
      var g := f - {x};
      assert g.Keys == from - {x};
      forall y | y in to - {f[x]}
        ensures exists z :: z in from - {x} && g[z] == y
      {
        var z :| z in from && f[z] == y;
        assert g[z] == y;
      }
      SameSize(g, from - {x}, to - {f[x]});
    }
  }

  lemma SameDimensions(r: Renaming, a: Held, b: Held, m: Model, n: Model, la: Layout, lb: Layout, inf: real)
    requires Represents(a, m, la, inf) && Represents(b, n, lb, inf) && Renames(r, m, n)
    ensures |a.native.cols| == |b.native.cols| && |a.native.rows| == |b.native.rows|
  {
    hide Bijects, Carries, CarriesRow, CarriesObjective, WellFormed, CachesOf;
    SameSize(r.variables, m.variables.Keys, n.variables.Keys);
    SameSize(r.rows, m.rows.Keys, n.rows.Keys);
    LayoutCounts(la.cols, m.variables.Keys);
    LayoutCounts(lb.cols, n.variables.Keys);
    LayoutCounts(la.rows, m.rows.Keys);
    LayoutCounts(lb.rows, n.rows.Keys);
  }

  lemma VariablesMatch(
      r: Renaming, a: Held, b: Held, m: Model, n: Model, la: Layout, lb: Layout, inf: real, v: VariableId)
    requires Represents(a, m, la, inf) && Represents(b, n, lb, inf) && Renames(r, m, n)
    requires Dimensioned(a) && Dimensioned(b) && v in a.colMap && v in r.variables && r.variables[v] in b.colMap
    ensures MatchesVariable(a, b, v, r.variables[v])
  {
    hide Renames, WellFormed, Shows, Dimensioned, SurfaceOf, Carries, CachesOf, ColumnOf;
    assert Carries(r.variables, m.variables, n.variables) &&
      v in m.variables by { CarriedVariable(r, a, m, n, la, inf, v); }
    SurfacesMatch(r, m, n);
    ShowsVariable(a, ViewOf(m), la, inf, v);
    ShowsVariable(b, ViewOf(n), lb, inf, r.variables[v]);
    assert n.variables[r.variables[v]] == m.variables[v] by { CarriedVariable(r, a, m, n, la, inf, v); }
    if SurfaceOf(m).Some? {
      CarriesCell(r.variables, SurfaceOf(m).value.costs, SurfaceOf(n).value.costs, v);
    }
  }

  lemma CarriedVariable(r: Renaming, a: Held, m: Model, n: Model, la: Layout, inf: real, v: VariableId)
    requires Represents(a, m, la, inf) && Renames(r, m, n) && v in a.colMap
    ensures Carries(r.variables, m.variables, n.variables)
    ensures v in m.variables && v in r.variables && r.variables[v] in n.variables
    ensures n.variables[r.variables[v]] == m.variables[v]
  {
    RepresentsMeasures(a, m, la, inf);
  }

  lemma CarriedRow(r: Renaming, m: Model, n: Model, x: RowId)
    requires Renames(r, m, n) && x in m.rows
    ensures x in r.rows && r.rows[x] in n.rows && CarriesRow(r.variables, m.rows[x], n.rows[r.rows[x]])
  {
  }

  lemma RowsMatch(r: Renaming, a: Held, b: Held, m: Model, n: Model, la: Layout, lb: Layout, inf: real, x: RowId)
    requires Represents(a, m, la, inf) && Represents(b, n, lb, inf) && Renames(r, m, n)
    requires Dimensioned(a) && Dimensioned(b) && x in m.rows && x in a.rowMap && r.rows[x] in b.rowMap
    requires Bijects(r.variables, a.colMap.Keys, b.colMap.Keys)
    ensures MatchesRow(r.variables, a, b, x, r.rows[x])
  {
    hide Renames, WellFormed, Shows, Dimensioned, Carries, CachesOf;
    assert CarriesRow(r.variables, m.rows[x], n.rows[r.rows[x]]) by { CarriedRow(r, m, n, x); }
    ShowsRow(a, ViewOf(m), la, inf, x);
    ShowsRow(b, ViewOf(n), lb, inf, r.rows[x]);
    forall v | v in a.colMap
      ensures Cell(m.rows[x].coefficients, v) == Cell(n.rows[r.rows[x]].coefficients, r.variables[v])
    {
      CarriesCell(r.variables, m.rows[x].coefficients, n.rows[r.rows[x]].coefficients, v);
    }
  }

  /** An image of matched maps, taken key by key, is matched. */
  lemma CarriesImage<Id(
      !new), S, T>(f: map<Id, Id>, a: map<Id, S>, b: map<Id, S>, image: map<Id, T>, renamed: map<Id, T>)
    requires Bijects(f, a.Keys, b.Keys) && image.Keys <= a.Keys && renamed.Keys <= b.Keys
    requires forall x :: x in f ==> (x in image <==> f[x] in renamed) && (x in image ==> renamed[f[x]] == image[x])
    ensures Carries(f, image, renamed)
  {
  }

  lemma CachesMatch(r: Renaming, m: Model, n: Model, inf: real)
    requires Renames(r, m, n) && WellFormed(m)
    ensures CarriesCaches(r, CachesOf(m, inf), CachesOf(n, inf))
  {
    SurfacesMatch(r, m, n);
    ObjectiveCachesMatch(r, m, n);
    CostCachesMatch(r, m, n);
    RowCachesMatch(r, m, n, inf);
    VariableCachesMatch(r, m, n, inf);
    hide Carries, Renames, WellFormed, VarBoundsOf, RowBoundsOf, UserVarsOf, UserRowsOf, UserObjsOf, CostCachesOf,
      SensesOf, OffsetsOf;
  }

  lemma VariableCachesMatch(r: Renaming, m: Model, n: Model, inf: real)
    requires Renames(r, m, n)
    ensures Carries(r.variables, VarBoundsOf(m.variables, inf), VarBoundsOf(n.variables, inf))
    ensures Carries(r.variables, UserVarsOf(m.variables), UserVarsOf(n.variables))
  {
    var a, b := m.variables, n.variables;
    CarriesImage(r.variables, a, b, VarBoundsOf(a, inf), VarBoundsOf(b, inf));
    CarriesImage(r.variables, a, b, UserVarsOf(a), UserVarsOf(b));
  }

  lemma RowCachesMatch(r: Renaming, m: Model, n: Model, inf: real)
    requires Renames(r, m, n)
    ensures Carries(r.rows, RowBoundsOf(m.rows, inf), RowBoundsOf(n.rows, inf))
    ensures Carries(r.rows, UserRowsOf(m.rows), UserRowsOf(n.rows))
  {
    var a, b := m.rows, n.rows;
    forall x | x in a
      ensures b[r.rows[x]].bounds == a[x].bounds && b[r.rows[x]].user == a[x].user
    {
      assert CarriesRow(r.variables, a[x], b[r.rows[x]]);
    }
    CarriesImage(r.rows, a, b, RowBoundsOf(a, inf), RowBoundsOf(b, inf));
    CarriesImage(r.rows, a, b, UserRowsOf(a), UserRowsOf(b));
  }

  lemma ObjectiveCachesMatch(r: Renaming, m: Model, n: Model)
    requires Renames(r, m, n)
    ensures Carries(r.objectives, UserObjsOf(m.objectives), UserObjsOf(n.objectives))
    ensures Carries(r.objectives, SensesOf(m.objectives), SensesOf(n.objectives))
    ensures Carries(r.objectives, OffsetsOf(m.objectives), OffsetsOf(n.objectives))
  {
    hide Carries;
    var a, b := m.objectives, n.objectives;
    forall o | o in a
      ensures CarriesObjective(r.variables, a[o], b[r.objectives[o]])
    {
    }
    CarriesImage(r.objectives, a, b, UserObjsOf(a), UserObjsOf(b));
    CarriesImage(r.objectives, a, b, SensesOf(a), SensesOf(b));
    CarriesImage(r.objectives, a, b, OffsetsOf(a), OffsetsOf(b));
  }

  lemma CostCachesMatch(r: Renaming, m: Model, n: Model)
    requires Renames(r, m, n)
    ensures
      var a, b := CostCachesOf(m.objectives), CostCachesOf(n.objectives);
      && a.Keys == r.objectives.Keys && b.Keys == r.objectives.Values
      && forall o :: o in a ==> Carries(r.variables, a[o], b[r.objectives[o]])
  {
    hide Carries;
    forall o | o in m.objectives
      ensures CarriesObjective(r.variables, m.objectives[o], n.objectives[r.objectives[o]])
    {
    }
    assert n.objectives.Keys == r.objectives.Values;
  }

  lemma SameDomains(r: Renaming, a: Held, b: Held, m: Model, n: Model, la: Layout, lb: Layout, inf: real)
    requires Represents(a, m, la, inf) && Represents(b, n, lb, inf) && Renames(r, m, n)
    ensures Bijects(r.variables, a.colMap.Keys, b.colMap.Keys) && Bijects(r.rows, a.rowMap.Keys, b.rowMap.Keys)
    ensures a.rowMap.Keys == m.rows.Keys && WellFormed(m)
    ensures a.caches == CachesOf(m, inf) && b.caches == CachesOf(n, inf)
  {
    hide Bijects, Carries, WellFormed, Numbers, CachesOf;
    RepresentsMeasures(a, m, la, inf);
    RepresentsMeasures(b, n, lb, inf);
  }

  lemma SameScalars(r: Renaming, a: Held, b: Held, m: Model, n: Model, la: Layout, lb: Layout, inf: real)
    requires Represents(a, m, la, inf) && Represents(b, n, lb, inf) && Renames(r, m, n)
    ensures Dimensioned(a) && Dimensioned(b)
    ensures a.native.offset == b.native.offset
    ensures a.caches.active.Some? ==> a.native.sense == b.native.sense
  {
    hide Bijects, Carries, Renames, CarriesObjective, CarriesRow, WellFormed;
    ShowsIsDimensioned(a, ViewOf(m), la, inf);
    ShowsIsDimensioned(b, ViewOf(n), lb, inf);
    SurfacesMatch(r, m, n);
    SurfaceIsActive(m);
  }

  /** Two states that represent one model under two namings differ only in names and numbering. */
  lemma RepresentationIsUniqueUpToNames(
      r: Renaming, a: Held, b: Held, m: Model, n: Model, la: Layout, lb: Layout, inf: real)
    requires Represents(a, m, la, inf) && Represents(b, n, lb, inf) && Renames(r, m, n)
    ensures SameUpToRenaming(r, a, b)
  {
    hide Represents, Renames, Dimensioned, CarriesCaches, CachesOf, WellFormed, MatchesVariable, MatchesRow;
    SameDomains(r, a, b, m, n, la, lb, inf);
    SameScalars(r, a, b, m, n, la, lb, inf);
    SameDimensions(r, a, b, m, n, la, lb, inf);
    CachesMatch(r, m, n, inf);
    forall v | v in a.colMap
      ensures MatchesVariable(a, b, v, r.variables[v])
    {
      VariablesMatch(r, a, b, m, n, la, lb, inf, v);
    }
    forall x | x in a.rowMap
      ensures MatchesRow(r.variables, a, b, x, r.rows[x])
    {
      RowsMatch(r, a, b, m, n, la, lb, inf, x);
    }
  }

  // ---------------------------------------------------------------- snapshots of a model

  /** The entries of a coefficient map in the order of `cols`, under the new ids. */
  function Listed(
      c: map<VariableId, real>, cols: seq<VariableId>, f: map<VariableId, VariableId>): seq<(VariableId, real)>
    requires forall i :: 0 <= i < |cols| ==> cols[i] in f
  {
    if |cols| == 0 then []
    else
      var x := cols[|cols| - 1];
      Listed(c, cols[..|cols| - 1], f) + if x in c then [(f[x], c[x])] else []
  }

  lemma {:induction false} ListedMap(c: map<VariableId, real>, cols: seq<VariableId>, f: map<VariableId, VariableId>)
    requires OneToOne(f) && forall i :: 0 <= i < |cols| ==> cols[i] in f
    ensures forall x :: x in f ==> (f[x] in ToMap(Listed(c, cols, f)) <==> x in cols && x in c)
    ensures forall x :: x in cols && x in c ==> ToMap(Listed(c, cols, f))[f[x]] == c[x]
    ensures ToMap(Listed(c, cols, f)).Keys <= f.Values
  {
    if |cols| != 0 {
      var k := |cols| - 1;
      var before := Listed(c, cols[..k], f);
      ListedMap(c, cols[..k], f);
      assert cols == cols[..k] + [cols[k]];
      if cols[k] in c {
        assert Listed(c, cols, f)[..|before|] == before;
      } else {
        assert Listed(c, cols, f) == before;
      }
    }
  }

  lemma {:induction false} ListedRefers(c: map<VariableId, real>, cols: seq<VariableId>, f: map<VariableId, VariableId>)
    requires forall i :: 0 <= i < |cols| ==> cols[i] in f
    ensures Refers(Listed(c, cols, f), set i | 0 <= i < |cols| :: f[cols[i]])
  {
    if |cols| != 0 {
      var k := |cols| - 1;
      ListedRefers(c, cols[..k], f);
      assert forall i :: 0 <= i < k ==> f[cols[..k][i]] == f[cols[i]];
    }
  }

  /** The entities of a model, each listed once. */
  datatype Listing = Listing(cols: seq<VariableId>, rows: seq<RowId>, objectives: seq<ObjectiveId>)

  ghost predicate Lists<Id(!new)>(s: seq<Id>, ids: set<Id>, f: map<Id, Id>) {
    Distinct(s) && (forall x :: x in s <==> x in ids) && f.Keys == ids && OneToOne(f)
  }

  ghost predicate ListsAll(l: Listing, m: Model, r: Renaming) {
    && Lists(l.cols, m.variables.Keys, r.variables)
    && Lists(l.rows, m.rows.Keys, r.rows)
    && Lists(l.objectives, m.objectives.Keys, r.objectives)
  }

  function VariableOrigin(user: Option<UserVariable>): Origin {
    if user.Some? then FromVariable(user.value) else FromConstruct
  }

  function RowOrigin(user: Option<UserConstraint>): Origin {
    if user.Some? then FromConstraint(user.value) else FromConstruct
  }

  function ObjectiveOrigin(user: Option<UserObjective>): Origin {
    if user.Some? then FromObjective(user.value) else FromConstruct
  }

  /** What the origins of one family must say so that the entities keep their user handles. */
  ghost predicate VariablesStem(
      variables: map<VariableId, VariableData>, f: map<VariableId, VariableId>, origins: Origins)
    requires variables.Keys <= f.Keys
  {
    forall x :: x in variables ==>
      f[x] in origins.variables && origins.variables[f[x]] == VariableOrigin(variables[x].user)
  }

  ghost predicate RowsStem(rows: map<RowId, RowData>, f: map<RowId, RowId>, origins: Origins)
    requires rows.Keys <= f.Keys
  {
    forall x :: x in rows ==> f[x] in origins.rows && origins.rows[f[x]] == RowOrigin(rows[x].user)
  }

  ghost predicate ObjectivesStem(
      objectives: map<ObjectiveId, ObjectiveData>, f: map<ObjectiveId, ObjectiveId>, origins: Origins)
    requires objectives.Keys <= f.Keys
  {
    forall x :: x in objectives ==>
      f[x] in origins.objectives && origins.objectives[f[x]] == ObjectiveOrigin(objectives[x].user)
  }

  function Images<Id, Data, Origin>(data: map<Id, Data>, f: map<Id, Id>, origin: Data -> Origin): map<Id, Origin>
    requires data.Keys <= f.Keys && forall x, y :: x in f && y in f && f[x] == f[y] ==> x == y
  {
    map x | x in data :: f[x] := origin(data[x])
  }

  ghost function OriginsFor(m: Model, r: Renaming): Origins
    requires m.variables.Keys <= r.variables.Keys && m.rows.Keys <= r.rows.Keys
    requires m.objectives.Keys <= r.objectives.Keys
    requires OneToOne(r.variables) && OneToOne(r.rows) && OneToOne(r.objectives)
  {
    Origins(
      Images(m.variables, r.variables, (d: VariableData) => VariableOrigin(d.user)),
      Images(m.rows, r.rows, (d: RowData) => RowOrigin(d.user)),
      Images(m.objectives, r.objectives, (d: ObjectiveData) => ObjectiveOrigin(d.user)))
  }

  // ---- one family at a time

  function VariableList(
      variables: map<VariableId, VariableData>, cols: seq<VariableId>, f: map<VariableId, VariableId>):
    (vs: seq<CompiledVariable>)
    requires forall i :: 0 <= i < |cols| ==> cols[i] in variables && cols[i] in f
    ensures |vs| == |cols| && forall i :: 0 <= i < |cols| ==> vs[i].id == f[cols[i]]
  {
    seq(|cols|, i requires 0 <= i < |cols| =>
      var d := variables[cols[i]];
      CompiledVariable(f[cols[i]], d.bounds, if d.integer then Integer else Continuous))
  }

  function RowList(
      rows: map<RowId, RowData>, order: seq<RowId>, g: map<RowId, RowId>, cols: seq<VariableId>,
      f: map<VariableId, VariableId>):
    (rs: seq<CompiledRow>)
    requires forall i :: 0 <= i < |order| ==> order[i] in rows && order[i] in g
    requires forall i :: 0 <= i < |cols| ==> cols[i] in f
    ensures |rs| == |order| && forall i :: 0 <= i < |order| ==>
      rs[i].id == g[order[i]] && rs[i].coefficients == Listed(rows[order[i]].coefficients, cols, f)
  {
    seq(|order|, i requires 0 <= i < |order| =>
      var d := rows[order[i]];
      CompiledRow(g[order[i]], d.bounds, Listed(d.coefficients, cols, f)))
  }

  function ObjectiveList(
      objectives: map<ObjectiveId, ObjectiveData>, order: seq<ObjectiveId>, g: map<ObjectiveId, ObjectiveId>,
      cols: seq<VariableId>, f: map<VariableId, VariableId>):
    (os: seq<CompiledObjective>)
    requires forall i :: 0 <= i < |order| ==> order[i] in objectives && order[i] in g
    requires forall i :: 0 <= i < |cols| ==> cols[i] in f
    ensures |os| == |order| && forall i :: 0 <= i < |order| ==>
      os[i].id == g[order[i]] && os[i].coefficients == Listed(objectives[order[i]].costs, cols, f)
  {
    seq(|order|, i requires 0 <= i < |order| =>
      var d := objectives[order[i]];
      CompiledObjective(g[order[i]], d.sense, Listed(d.costs, cols, f), d.constant))
  }

  /** `n` holds the wanted data of the listed entities under their new ids, and nothing else. */
  ghost predicate Holds<Id(!new), T>(n: map<Id, T>, f: map<Id, Id>, listed: seq<Id>, want: map<Id, T>)
  {
    && n.Keys <= f.Values
    && (forall x :: x in f ==> (f[x] in n <==> x in listed))
    && (forall x :: x in listed && x in f ==> x in want && n[f[x]] == want[x])
  }

  lemma HoldsNothing<Id(!new), T>(f: map<Id, Id>, want: map<Id, T>)
    ensures Holds(map[], f, [], want)
  {
  }

  lemma HoldsNext<Id(!new), T>(n: map<Id, T>, f: map<Id, Id>, listed: seq<Id>, want: map<Id, T>, x: Id)
    requires OneToOne(f) && Holds(n, f, listed, want) && x in f && x in want
    ensures Holds(n[f[x] := want[x]], f, listed + [x], want)
  {
  }

  lemma {:induction false} VariableListMeans(
      variables: map<VariableId, VariableData>, cols: seq<VariableId>, f: map<VariableId, VariableId>, origins: Origins)
    requires OneToOne(f) && variables.Keys <= f.Keys && VariablesStem(variables, f, origins)
    requires forall i :: 0 <= i < |cols| ==> cols[i] in variables
    ensures Holds(VariablesOf(VariableList(variables, cols, f), origins), f, cols, variables)
  {
    hide Holds, OneToOne;
    HoldsNothing(f, variables);
    if |cols| == 0 {
      assert cols == [];
    } else {
      var k := |cols| - 1;
      VariableListMeans(variables, cols[..k], f, origins);
      assert VariableList(variables, cols, f)[..k] == VariableList(variables, cols[..k], f);
      assert cols == cols[..k] + [cols[k]];
      HoldsNext(VariablesOf(VariableList(variables, cols[..k], f), origins), f, cols[..k], variables, cols[k]);
    }
  }

  function ListedRowData(
      rows: map<RowId, RowData>, cols: seq<VariableId>, f: map<VariableId, VariableId>): map<RowId, RowData>
    requires forall i :: 0 <= i < |cols| ==> cols[i] in f
  {
    map x | x in rows :: rows[x].(coefficients := ToMap(Listed(rows[x].coefficients, cols, f)))
  }

  lemma {:induction false} RowListMeans(
      rows: map<RowId, RowData>, order: seq<RowId>, g: map<RowId, RowId>, cols: seq<VariableId>,
      f: map<VariableId, VariableId>, origins: Origins)
    requires OneToOne(g) && rows.Keys <= g.Keys && RowsStem(rows, g, origins)
    requires forall i :: 0 <= i < |order| ==> order[i] in rows
    requires forall i :: 0 <= i < |cols| ==> cols[i] in f
    ensures Holds(RowsOf(RowList(rows, order, g, cols, f), origins), g, order, ListedRowData(rows, cols, f))
  {
    hide ToMap, Listed, Holds, OneToOne;
    var want := ListedRowData(rows, cols, f);
    HoldsNothing(g, want);
    if |order| == 0 {
      assert order == [];
    } else {
      var k := |order| - 1;
      RowListMeans(rows, order[..k], g, cols, f, origins);
      assert RowList(rows, order, g, cols, f)[..k] == RowList(rows, order[..k], g, cols, f);
      assert order == order[..k] + [order[k]];
      HoldsNext(RowsOf(RowList(rows, order[..k], g, cols, f), origins), g, order[..k], want, order[k]);
    }
  }

  function ListedObjectiveData(
      objectives: map<ObjectiveId, ObjectiveData>, cols: seq<VariableId>, f: map<VariableId, VariableId>):
    map<ObjectiveId, ObjectiveData>
    requires forall i :: 0 <= i < |cols| ==> cols[i] in f
  {
    map x | x in objectives :: objectives[x].(costs := ToMap(Listed(objectives[x].costs, cols, f)))
  }

  lemma {:induction false} ObjectiveListMeans(
      objectives: map<ObjectiveId, ObjectiveData>, order: seq<ObjectiveId>, g: map<ObjectiveId, ObjectiveId>,
      cols: seq<VariableId>, f: map<VariableId, VariableId>, origins: Origins)
    requires OneToOne(g) && objectives.Keys <= g.Keys && ObjectivesStem(objectives, g, origins)
    requires forall i :: 0 <= i < |order| ==> order[i] in objectives
    requires forall i :: 0 <= i < |cols| ==> cols[i] in f
    ensures
      Holds(
        ObjectivesOf(ObjectiveList(objectives, order, g, cols, f), origins), g, order,
        ListedObjectiveData(objectives, cols, f))
  {
    hide ToMap, Listed, Holds, OneToOne;
    var want := ListedObjectiveData(objectives, cols, f);
    HoldsNothing(g, want);
    if |order| == 0 {
      assert order == [];
    } else {
      var k := |order| - 1;
      ObjectiveListMeans(objectives, order[..k], g, cols, f, origins);
      assert ObjectiveList(objectives, order, g, cols, f)[..k] == ObjectiveList(objectives, order[..k], g, cols, f);
      assert order == order[..k] + [order[k]];
      HoldsNext(
        ObjectivesOf(ObjectiveList(objectives, order[..k], g, cols, f), origins), g, order[..k], want, order[k]);
    }
  }

  lemma ListedBijects<Id(!new), Data>(s: seq<Id>, data: map<Id, Data>, f: map<Id, Id>, n: map<Id, Data>)
    requires Lists(s, data.Keys, f) && exists want :: Holds(n, f, s, want)
    ensures Bijects(f, data.Keys, n.Keys)
  {
  }

  lemma ListedCarries(c: map<VariableId, real>, cols: seq<VariableId>, f: map<VariableId, VariableId>)
    requires OneToOne(f) && c.Keys <= f.Keys && forall x :: x in cols <==> x in f
    ensures Carries(f, c, ToMap(Listed(c, cols, f)))
  {
    ListedMap(c, cols, f);
  }

  // ---- the whole snapshot

  /** A snapshot that lists the model's entities in the given order, under the given names. */
  ghost function SnapshotFor(m: Model, l: Listing, r: Renaming, c: CompilationId, revision: Revision): BackendSnapshot
    requires ListsAll(l, m, r)
  {
    BackendSnapshot(
      c, revision,
      VariableList(m.variables, l.cols, r.variables),
      RowList(m.rows, l.rows, r.rows, l.cols, r.variables),
      ObjectiveList(m.objectives, l.objectives, r.objectives, l.cols, r.variables),
      RenamedPolicy(m.policy, r.objectives),
      OriginsFor(m, r))
  }

  lemma NamesUnique<Id(!new)>(s: seq<Id>, f: map<Id, Id>)
    requires Distinct(s) && OneToOne(f) && forall i :: 0 <= i < |s| ==> s[i] in f
    ensures forall i, j :: 0 <= i < j < |s| ==> f[s[i]] != f[s[j]]
  {
  }

  lemma SnapshotIdsUnique(m: Model, l: Listing, r: Renaming, c: CompilationId, revision: Revision)
    requires ListsAll(l, m, r)
    ensures IdsUnique(SnapshotFor(m, l, r, c, revision)) && OriginsComplete(SnapshotFor(m, l, r, c, revision))
  {
    hide RenamedPolicy, Listed;
    NamesUnique(l.cols, r.variables);
    NamesUnique(l.rows, r.rows);
    NamesUnique(l.objectives, r.objectives);
  }

  lemma SnapshotRowsRefer(m: Model, l: Listing, r: Renaming, c: CompilationId, revision: Revision)
    requires ListsAll(l, m, r)
    ensures RowsRefer(SnapshotFor(m, l, r, c, revision)) && ObjectivesRefer(SnapshotFor(m, l, r, c, revision))
  {
    hide Listed, Refers, OriginsFor, RenamedPolicy;
    var s := SnapshotFor(m, l, r, c, revision);
    assert (set i | 0 <= i < |l.cols| :: r.variables[l.cols[i]]) == VariableIds(s);
    forall i | 0 <= i < |s.rows|
      ensures Refers(s.rows[i].coefficients, VariableIds(s))
    {
      ListedRefers(m.rows[l.rows[i]].coefficients, l.cols, r.variables);
    }
    forall i | 0 <= i < |s.objectives|
      ensures Refers(s.objectives[i].coefficients, VariableIds(s))
    {
      ListedRefers(m.objectives[l.objectives[i]].costs, l.cols, r.variables);
    }
  }

  lemma SnapshotPolicyResolves(m: Model, l: Listing, r: Renaming, c: CompilationId, revision: Revision)
    requires ListsAll(l, m, r) && WellFormed(m)
    ensures PolicyResolves(RenamedPolicy(m.policy, r.objectives), ObjectiveIds(SnapshotFor(m, l, r, c, revision)))
  {
    hide Listed, OriginsFor, ReferencesResolve, ObjectivesAreUsers;
    var s := SnapshotFor(m, l, r, c, revision);
    if m.policy.Single? {
      var i :| 0 <= i < |l.objectives| && l.objectives[i] == m.policy.objective;
      assert s.objectives[i].id == r.objectives[m.policy.objective];
    }
  }

  lemma SnapshotForIsSound(m: Model, l: Listing, r: Renaming, c: CompilationId, revision: Revision)
    requires ListsAll(l, m, r) && WellFormed(m)
    ensures SnapshotSound(SnapshotFor(m, l, r, c, revision))
  {
    hide WellFormed, RowsRefer, ObjectivesRefer, PolicyResolves, IdsUnique, OriginsComplete, ListsAll, OriginsFor;
    SnapshotIdsUnique(m, l, r, c, revision);
    SnapshotRowsRefer(m, l, r, c, revision);
    SnapshotPolicyResolves(m, l, r, c, revision);
  }

  lemma OriginsStem(m: Model, l: Listing, r: Renaming)
    requires ListsAll(l, m, r)
    ensures VariablesStem(m.variables, r.variables, OriginsFor(m, r))
    ensures RowsStem(m.rows, r.rows, OriginsFor(m, r))
    ensures ObjectivesStem(m.objectives, r.objectives, OriginsFor(m, r))
  {
  }

  lemma ResolvedCosts(m: Model)
    requires WellFormed(m)
    ensures forall x :: x in m.rows ==> m.rows[x].coefficients.Keys <= m.variables.Keys
    ensures forall x :: x in m.objectives ==> m.objectives[x].costs.Keys <= m.variables.Keys
  {
  }

  lemma HeldRowsCarry(r: Renaming, rows: map<RowId, RowData>, order: seq<RowId>, want: map<RowId, RowData>,
      n: map<RowId, RowData>)
    requires Lists(order, rows.Keys, r.rows) && Holds(n, r.rows, order, want)
    requires forall x :: x in rows ==> x in want && CarriesRow(r.variables, rows[x], want[x])
    ensures CarriesRows(r, rows, n)
  {
    hide CarriesRow;
  }

  lemma ListedRowsCarry(m: Model, l: Listing, r: Renaming)
    requires ListsAll(l, m, r) && WellFormed(m)
    ensures
      var want := ListedRowData(m.rows, l.cols, r.variables);
      forall x :: x in m.rows ==> x in want && CarriesRow(r.variables, m.rows[x], want[x])
  {
    hide WellFormed, ToMap, Listed, Carries;
    ResolvedCosts(m);
    forall x | x in m.rows
      ensures CarriesRow(r.variables, m.rows[x], ListedRowData(m.rows, l.cols, r.variables)[x])
    {
      ListedCarries(m.rows[x].coefficients, l.cols, r.variables);
    }
  }

  lemma SnapshotRowsCarry(m: Model, l: Listing, r: Renaming, origins: Origins)
    requires ListsAll(l, m, r) && WellFormed(m) && RowsStem(m.rows, r.rows, origins)
    ensures
      var n := RowsOf(RowList(m.rows, l.rows, r.rows, l.cols, r.variables), origins);
      Bijects(r.rows, m.rows.Keys, n.Keys) && CarriesRows(r, m.rows, n)
  {
    hide WellFormed, RowsOf, RowsStem, RowList, Holds, CarriesRow, CarriesRows, Bijects, ListedRowData;
    var n := RowsOf(RowList(m.rows, l.rows, r.rows, l.cols, r.variables), origins);
    RowListMeans(m.rows, l.rows, r.rows, l.cols, r.variables, origins);
    ListedBijects(l.rows, m.rows, r.rows, n);
    ListedRowsCarry(m, l, r);
    HeldRowsCarry(r, m.rows, l.rows, ListedRowData(m.rows, l.cols, r.variables), n);
  }

  lemma HeldObjectivesCarry(
      r: Renaming, objectives: map<ObjectiveId, ObjectiveData>, order: seq<ObjectiveId>,
      want: map<ObjectiveId, ObjectiveData>, n: map<ObjectiveId, ObjectiveData>)
    requires Lists(order, objectives.Keys, r.objectives) && Holds(n, r.objectives, order, want)
    requires forall x :: x in objectives ==> x in want && CarriesObjective(r.variables, objectives[x], want[x])
    ensures CarriesObjectives(r, objectives, n)
  {
    hide CarriesObjective;
  }

  lemma ListedObjectivesCarry(m: Model, l: Listing, r: Renaming)
    requires ListsAll(l, m, r) && WellFormed(m)
    ensures
      var want := ListedObjectiveData(m.objectives, l.cols, r.variables);
      forall x :: x in m.objectives ==> x in want && CarriesObjective(r.variables, m.objectives[x], want[x])
  {
    hide WellFormed, ToMap, Listed, Carries;
    ResolvedCosts(m);
    forall x | x in m.objectives
      ensures CarriesObjective(r.variables, m.objectives[x], ListedObjectiveData(m.objectives, l.cols, r.variables)[x])
    {
      ListedCarries(m.objectives[x].costs, l.cols, r.variables);
    }
  }

  lemma SnapshotObjectivesCarry(m: Model, l: Listing, r: Renaming, origins: Origins)
    requires ListsAll(l, m, r) && WellFormed(m) && ObjectivesStem(m.objectives, r.objectives, origins)
    ensures
      var n := ObjectivesOf(ObjectiveList(m.objectives, l.objectives, r.objectives, l.cols, r.variables), origins);
      Bijects(r.objectives, m.objectives.Keys, n.Keys) && CarriesObjectives(r, m.objectives, n)
  {
    hide WellFormed, ObjectivesOf, ObjectivesStem, ObjectiveList, Holds, CarriesObjective, CarriesObjectives, Bijects,
      ListedObjectiveData;
    var n := ObjectivesOf(ObjectiveList(m.objectives, l.objectives, r.objectives, l.cols, r.variables), origins);
    ObjectiveListMeans(m.objectives, l.objectives, r.objectives, l.cols, r.variables, origins);
    ListedBijects(l.objectives, m.objectives, r.objectives, n);
    ListedObjectivesCarry(m, l, r);
    HeldObjectivesCarry(r, m.objectives, l.objectives, ListedObjectiveData(m.objectives, l.cols, r.variables), n);
  }

  lemma SnapshotVariablesCarry(m: Model, l: Listing, r: Renaming, origins: Origins)
    requires ListsAll(l, m, r) && VariablesStem(m.variables, r.variables, origins)
    ensures
      var n := VariablesOf(VariableList(m.variables, l.cols, r.variables), origins);
      Bijects(r.variables, m.variables.Keys, n.Keys) && Carries(r.variables, m.variables, n)
  {
    hide VariablesOf, VariablesStem;
    VariableListMeans(m.variables, l.cols, r.variables, origins);
    ListedBijects(l.cols, m.variables, r.variables,
      VariablesOf(VariableList(m.variables, l.cols, r.variables), origins));
  }

  /** The snapshot describes the model, renamed. */
  lemma SnapshotForRenames(m: Model, l: Listing, r: Renaming, c: CompilationId, revision: Revision)
    requires ListsAll(l, m, r) && WellFormed(m)
    ensures Renames(r, m, ModelOf(SnapshotFor(m, l, r, c, revision)))
  {
    hide Bijects, Carries, CarriesRow, CarriesObjective, WellFormed, OriginsFor, VariablesStem, RowsStem,
      ObjectivesStem;
    hide VariableList, RowList, ObjectiveList, VariablesOf, RowsOf, ObjectivesOf, RenamedPolicy;
    OriginsStem(m, l, r);
    SnapshotVariablesCarry(m, l, r, OriginsFor(m, r));
    SnapshotRowsCarry(m, l, r, OriginsFor(m, r));
    SnapshotObjectivesCarry(m, l, r, OriginsFor(m, r));
  }

  lemma {:induction false} ListingExists<Id(!new)>(ids: set<Id>) returns (s: seq<Id>)
    ensures Distinct(s) && forall x :: x in s <==> x in ids
    decreases |ids|
  {
    if ids == {} {
      s := [];
    } else {
      var x :| x in ids;
      var rest := ListingExists(ids - {x});
      s := rest + [x];
    }
  }

  /** The ids of one family, listed, and the map that numbers them from zero by `named`. */
  lemma DenseNames<Id(!new)>(ids: set<Id>, named: nat -> Id) returns (s: seq<Id>, f: map<Id, Id>)
    requires forall i, j :: named(i) == named(j) ==> i == j
    ensures Lists(s, ids, f) && forall i :: 0 <= i < |s| ==> f[s[i]] == named(i)
  {
    s := ListingExists(ids);
    f := map i: nat | 0 <= i < |s| :: s[i] := named(i);
  }

  lemma ByPositionIsDense(s: BackendSnapshot)
    requires forall i :: 0 <= i < |s.variables| ==> s.variables[i].id == VariableId(i)
    requires forall i :: 0 <= i < |s.rows| ==> s.rows[i].id == RowId(i)
    requires forall i :: 0 <= i < |s.objectives| ==> s.objectives[i].id == ObjectiveId(i)
    ensures IdsDense(s)
  {
  }

  /**
   * What a full compilation does is always possible: every well-formed model has, under dense new ids, a snapshot
   * that passes `validate`.
   */
  lemma EveryModelHasAValidSnapshot(m: Model, c: CompilationId, revision: Revision)
    returns (s: BackendSnapshot, r: Renaming)
    requires WellFormed(m)
    ensures SnapshotValid(s) && Renames(r, m, ModelOf(s)) && s.compilation == c && s.revision == revision
  {
    hide Renames, WellFormed, Lists, DenseFamily, IdsDense, RowsRefer, ObjectivesRefer, PolicyResolves,
      OriginsComplete, OriginsFor, RenamedPolicy, IdsUnique;
    var cols, variables := DenseNames(m.variables.Keys, i => VariableId(i));
    var rows, constraints := DenseNames(m.rows.Keys, i => RowId(i));
    var order, objectives := DenseNames(m.objectives.Keys, i => ObjectiveId(i));
    var l := Listing(cols, rows, order);
    r := Renaming(variables, constraints, objectives);
    s := SnapshotFor(m, l, r, c, revision);
    SnapshotForIsSound(m, l, r, c, revision);
    SnapshotForRenames(m, l, r, c, revision);
    ByPositionIsDense(s);
  }

  /** Under its own ids every well-formed model has a sound snapshot, gaps and all. */
  lemma EveryModelHasASoundSnapshot(m: Model, c: CompilationId, revision: Revision) returns (s: BackendSnapshot)
    requires WellFormed(m)
    ensures SnapshotSound(s) && ModelOf(s) == m && s.compilation == c && s.revision == revision
  {
    hide WellFormed, SnapshotSound, ModelOf, Renames;
    var cols := ListingExists(m.variables.Keys);
    var rows := ListingExists(m.rows.Keys);
    var objectives := ListingExists(m.objectives.Keys);
    var l := Listing(cols, rows, objectives);
    var r := Renaming(
      map x | x in m.variables :: x, map x | x in m.rows :: x, map x | x in m.objectives :: x);
    s := SnapshotFor(m, l, r, c, revision);
    SnapshotForIsSound(m, l, r, c, revision);
    SnapshotForRenames(m, l, r, c, revision);
    SameNamesSameModel(r, m, ModelOf(s));
  }

  lemma SameNamesSameMap<Id(!new), T>(f: map<Id, Id>, a: map<Id, T>, b: map<Id, T>)
    requires Carries(f, a, b) && forall x :: x in f ==> f[x] == x
    ensures a == b
  {
  }

  lemma SameNamesSameModel(r: Renaming, m: Model, n: Model)
    requires Renames(r, m, n) && WellFormed(m)
    requires forall x :: x in r.variables ==> r.variables[x] == x
    requires forall x :: x in r.rows ==> r.rows[x] == x
    requires forall x :: x in r.objectives ==> r.objectives[x] == x
    ensures m == n
  {
    hide Carries, WellFormed;
    SameNamesSameMap(r.variables, m.variables, n.variables);
    forall x | x in m.rows
      ensures x in n.rows && m.rows[x] == n.rows[x]
    {
      assert CarriesRow(r.variables, m.rows[x], n.rows[r.rows[x]]);
      SameNamesSameMap(r.variables, m.rows[x].coefficients, n.rows[x].coefficients);
    }
    assert m.rows == n.rows;
    forall x | x in m.objectives
      ensures x in n.objectives && m.objectives[x] == n.objectives[x]
    {
      assert CarriesObjective(r.variables, m.objectives[x], n.objectives[r.objectives[x]]);
      SameNamesSameMap(r.variables, m.objectives[x].costs, n.objectives[x].costs);
    }
    assert m.objectives == n.objectives;
  }

  // ---------------------------------------------------------------- delta refines rebuild

  /**
   * Delta refines rebuild, as the compiler names things: a projection rebuilt from `s` and then taken through a
   * batch agrees with one rebuilt from the renumbered snapshot of a full compilation of the updated model, entity
   * by entity and cache by cache. `EveryModelHasAValidSnapshot` says that there is such a snapshot.
   */
  method DeltaRefinesRenamedRebuild(
      a: Projection, b: Projection, s: BackendSnapshot, ops: seq<BackendOp>, origins: Origins, updated: BackendSnapshot,
      ghost r: Renaming)
    returns (rebuilt: Status, applied: Status, again: Status)
    requires a.Separate() && b.Separate() && a.Repr !! b.Repr && a.inf == b.inf
    requires SnapshotSound(s) && ObjectivesAreUsers(ModelOf(s))
    requires OpsValid(ops, RegistryOf(ModelOf(s)), origins) && CompiledAll(ops, ModelOf(s), origins)
    requires SnapshotSound(updated) && ObjectivesAreUsers(ModelOf(updated))
    requires Renames(r, ApplyAll(ModelOf(s), ops, origins), ModelOf(updated))
    modifies a.Repr, b.Repr
    ensures rebuilt.Ok? && applied.Ok? && again.Ok? ==> SameUpToRenaming(r, a.State(), b.State())
  {
    hide SnapshotSound, ModelOf, Represents, OpsValid, CompiledAll, ApplyAll, PolicyRepresentable, Renames,
      ObjectivesAreUsers;
    applied, again := INVALID, INVALID;
    rebuilt := a.RebuildFromSnapshot(s);
    if rebuilt.Failed? { return; }
    RepresentedColumnsAreSound(a.State(), a.model, a.lay, a.inf);
    applied := a.ApplyBackendDelta(ops, origins);
    if applied.Failed? { return; }
    ghost var held := a.State();
    again := b.RebuildFromSnapshot(updated);
    if again.Failed? { return; }
    RepresentationIsUniqueUpToNames(r, held, b.State(), a.model, b.model, a.lay, b.lay, a.inf);
  }
}
