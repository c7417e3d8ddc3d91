/**
 * roml-highs/src/start.rs and solution.rs: user values go in through the column of the variable they
 * are for, and come back out through the reverse map.
 */
module Solutions {
  import opened Common
  import opened BackendIr
  import opened IndexMaps
  import opened Representing
  import opened Projecting

  /** One entry of a native value buffer; not-a-number and infinite entries are not reported. */
  datatype Reading = NotFinite | Number(value: real)

  /** The map from user variables back to compiled ids. */
  method CompiledByUser(users: map<VariableId, UserVariable>) returns (back: map<UserVariable, VariableId>)
    ensures forall u :: u in back ==> back[u] in users && users[back[u]] == u
    ensures forall v :: v in users ==> users[v] in back
  {
    back := map[];
    var todo := users.Keys;
    while todo != {}
      invariant todo <= users.Keys
      invariant forall u :: u in back ==> back[u] in users && users[back[u]] == u
      invariant forall v :: v in users && v !in todo ==> users[v] in back
      decreases todo
    {
      var v :| v in todo;
      back := back[users[v] := v];
      todo := todo - {v};
    }
  }

  /** The native entries of one start, or the typed error that stops it. */
  datatype Start =
    | Entries(indices: seq<int>, written: seq<real>)
    | NoCompiledColumn(user: UserVariable)
    | NoNativeColumn(variable: VariableId)

  lemma ColumnsByNumber(at: map<VariableId, int>, cols: seq<VariableId>)
    requires Numbers(at, cols)
    ensures forall v :: v in at ==> 0 <= at[v] < |cols| && cols[at[v]] == v
  {
    NumbersIsBijection(at, cols);
  }

  lemma ValidMaps(p: Projection)
    requires p.Valid()
    ensures Numbers(p.colMap.idToIdx, p.lay.cols) && p.userVars.Keys <= p.colMap.idToIdx.Keys
    ensures Distinct(p.lay.cols)
  {
    RepresentsMeasures(p.State(), p.model, p.lay, p.inf);
  }

  /**
   * What `apply_mip_starts` hands over for one start. Where every mapped variable has a column, as in a valid
   * projection, only an unknown variable stops it.
   */
  method MapStart(p: Projection, values: seq<(UserVariable, real)>, ghost cols: seq<VariableId>) returns (start: Start)
    requires Numbers(p.colMap.idToIdx, cols)
    ensures start.Entries? ==> |start.indices| == |start.written| == |values|
    ensures start.Entries? ==> forall k :: 0 <= k < |values| ==>
      start.written[k] == values[k].1 && IsColumnOf(start.indices[k], values[k].0, cols, p.userVars)
    ensures start.NoCompiledColumn? ==>
      start.user !in p.userVars.Values && exists k :: 0 <= k < |values| && values[k].0 == start.user
    ensures start.NoNativeColumn? ==>
      && start.variable in p.userVars && start.variable !in p.colMap.idToIdx
      && exists k :: 0 <= k < |values| && values[k].0 == p.userVars[start.variable]
    ensures p.userVars.Keys <= p.colMap.idToIdx.Keys ==>
      (start.Entries? <==> forall k :: 0 <= k < |values| ==> values[k].0 in p.userVars.Values)
  {
    hide Numbers, OneToOne;
    ColumnsByNumber(p.colMap.idToIdx, cols);
    var back := CompiledByUser(p.userVars);
    var indices: seq<int>, written: seq<real> := [], [];
    var k := 0;
    while k < |values|
      invariant 0 <= k <= |values| && |indices| == |written| == k
      invariant forall j :: 0 <= j < k ==> values[j].0 in p.userVars.Values
      invariant forall j :: 0 <= j < k ==>
        written[j] == values[j].1 && IsColumnOf(indices[j], values[j].0, cols, p.userVars)
    {
      if values[k].0 !in back { return NoCompiledColumn(values[k].0); }
      var col := p.colMap.Get(back[values[k].0]);
      if col.None? { return NoNativeColumn(back[values[k].0]); }
      indices, written := indices + [col.value], written + [values[k].1];
      k := k + 1;
    }
    return Entries(indices, written);
  }

  /** Column `i` shows the variable with user handle `u`. */
  ghost predicate IsColumnOf(i: int, u: UserVariable, cols: seq<VariableId>, users: map<VariableId, UserVariable>) {
    0 <= i < |cols| && cols[i] in users && users[cols[i]] == u
  }

  /** The user-keyed report of the first columns, in column order. */
  function Reported(
      readings: seq<Reading>, cols: seq<VariableId>, users: map<VariableId, UserVariable>): seq<(UserVariable, real)>
    requires |readings| <= |cols|
  {
    if |readings| == 0 then []
    else
      var k := |readings| - 1;
      Reported(readings[..k], cols, users)
      + if readings[k].Number? && cols[k] in users then [(users[cols[k]], readings[k].value)] else []
  }

  /** The filter over all columns in `extract_solution`. */
  method Extract(
      p: Projection, readings: seq<Reading>, ghost cols: seq<VariableId>)
    returns (report: seq<(UserVariable, real)>)
    requires Numbers(p.colMap.idToIdx, cols) && |readings| == |cols|
    ensures report == Reported(readings, cols, p.userVars)
  {
    var reverse := p.colMap.ReverseMap(cols);
    report := [];
    var i := 0;
    while i < |readings|
      invariant 0 <= i <= |readings|
      invariant report == Reported(readings[..i], cols, p.userVars)
    {
      assert readings[..i + 1][..i] == readings[..i];
      if readings[i].Number? && i in reverse && reverse[i] in p.userVars {
        report := report + [(p.userVars[reverse[i]], readings[i].value)];
      }
      i := i + 1;
    }
    assert readings[..|readings|] == readings;
  }

  /** A value is reported for a user variable exactly when its column holds it. */
  lemma {:induction false} ReportedExactly(
      readings: seq<Reading>, cols: seq<VariableId>, users: map<VariableId, UserVariable>, u: UserVariable, x: real)
    requires |readings| <= |cols|
    ensures (u, x) in Reported(readings, cols, users) <==>
      exists i :: 0 <= i < |readings| && readings[i] == Number(x) && IsColumnOf(i, u, cols, users)
  {
    if |readings| != 0 {
      var k := |readings| - 1;
      ReportedExactly(readings[..k], cols, users, u, x);
      assert forall i :: 0 <= i < k ==> readings[..k][i] == readings[i];
    }
  }

  ghost predicate OncePerUser(report: seq<(UserVariable, real)>) {
    forall i, j :: 0 <= i < j < |report| ==> report[i].0 != report[j].0
  }

  /** With distinct columns and handles no variable is reported twice. */
  lemma {:induction false} ReportedOnce(
      readings: seq<Reading>, cols: seq<VariableId>, users: map<VariableId, UserVariable>)
    requires |readings| <= |cols| && Distinct(cols) && OneToOne(users)
    ensures OncePerUser(Reported(readings, cols, users))
  {
    if |readings| != 0 {
      var k := |readings| - 1;
      ReportedOnce(readings[..k], cols, users);
      var before := Reported(readings[..k], cols, users);
      forall i | 0 <= i < |before|
        ensures cols[k] in users ==> before[i].0 != users[cols[k]]
      {
        assert before[i] in before;
        var (u, x) := before[i];
        ReportedExactly(readings[..k], cols, users, u, x);
        var j :| 0 <= j < k && readings[..k][j] == Number(x) && IsColumnOf(j, u, cols, users);
        assert cols[j] != cols[k];
      }
      var report := Reported(readings, cols, users);
      forall i, j | 0 <= i < j < |report|
        ensures report[i].0 != report[j].0
      {
        assert report[i] == before[i];
        if j < |before| {
          assert report[j] == before[j];
          assert before[i].0 != before[j].0;
        } else {
          assert report[j].0 == users[cols[k]];
          assert before[i].0 != users[cols[k]];
        }
      }
    }
  }

  /**
   * A start goes to the columns the report reads: whatever the solution holds, the one entry reported for a
   * variable of the start is the value of the column the start was written to.
   */
  lemma StartComesBack(
      values: seq<(UserVariable, real)>, indices: seq<int>, readings: seq<Reading>,
      cols: seq<VariableId>, users: map<VariableId, UserVariable>)
    requires Distinct(cols) && OneToOne(users) && |readings| == |cols| && |indices| == |values|
    requires forall k :: 0 <= k < |values| ==> IsColumnOf(indices[k], values[k].0, cols, users)
    ensures OncePerUser(Reported(readings, cols, users))
    ensures forall k, x :: 0 <= k < |values| ==>
      0 <= indices[k] < |readings|
      && ((values[k].0, x) in Reported(readings, cols, users) <==> readings[indices[k]] == Number(x))
  {
    hide Distinct, OneToOne, OncePerUser, Reported;
    ReportedOnce(readings, cols, users);
    forall k, x | 0 <= k < |values|
      ensures 0 <= indices[k] < |readings|
      ensures (values[k].0, x) in Reported(readings, cols, users) <==> readings[indices[k]] == Number(x)
    {
      ColumnIsReported(readings, cols, users, values[k].0, x, indices[k]);
    }
  }

  lemma ColumnIsReported(
      readings: seq<Reading>, cols: seq<VariableId>, users: map<VariableId, UserVariable>, u: UserVariable, x: real,
      i: int)
    requires Distinct(cols) && OneToOne(users) && |readings| == |cols| && IsColumnOf(i, u, cols, users)
    ensures (u, x) in Reported(readings, cols, users) <==> readings[i] == Number(x)
  {
    hide Reported;
    ReportedExactly(readings, cols, users, u, x);
    if j :| 0 <= j < |readings| && readings[j] == Number(x) && IsColumnOf(j, u, cols, users) {
      assert cols[j] == cols[i];
    }
  }

  /**
   * In and out again on a valid projection: the report of any solution gives each variable of the start the value
   * of the column it was written to, once; a solution that holds the start reports the start.
   */
  method StartRoundTrip(p: Projection, values: seq<(UserVariable, real)>, readings: seq<Reading>)
    returns (start: Start, report: seq<(UserVariable, real)>)
    requires p.Valid() && OneToOne(p.userVars) && |readings| == |p.lay.cols|
    ensures start.Entries? <==> forall k :: 0 <= k < |values| ==> values[k].0 in p.userVars.Values
    ensures OncePerUser(report)
    ensures start.Entries? ==> |start.indices| == |values| && forall k, x :: 0 <= k < |values| ==>
      0 <= start.indices[k] < |readings|
      && ((values[k].0, x) in report <==> readings[start.indices[k]] == Number(x))
  {
    ValidMaps(p);
    start := MapStart(p, values, p.lay.cols);
    report := Extract(p, readings, p.lay.cols);
    ReportedOnce(readings, p.lay.cols, p.userVars);
    if start.Entries? { StartComesBack(values, start.indices, readings, p.lay.cols, p.userVars); }
  }
}
