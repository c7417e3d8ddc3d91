/** The compiled model a backend snapshot describes. */
module SnapshotModels {
  import opened BackendIr
  import opened CompiledModels

  function VariablesOf(vs: seq<CompiledVariable>, origins: Origins): map<VariableId, VariableData> {
    if |vs| == 0 then map[]
    else
      var k := |vs| - 1;
      VariablesOf(vs[..k], origins)[vs[k].id := NewVariable(vs[k], origins)]
  }

  function RowsOf(rs: seq<CompiledRow>, origins: Origins): map<RowId, RowData> {
    if |rs| == 0 then map[]
    else
      var k := |rs| - 1;
      RowsOf(rs[..k], origins)[rs[k].id := NewRow(rs[k], origins)]
  }

  function ObjectivesOf(os: seq<CompiledObjective>, origins: Origins): map<ObjectiveId, ObjectiveData> {
    if |os| == 0 then map[]
    else
      var k := |os| - 1;
      ObjectivesOf(os[..k], origins)[os[k].id := NewObjective(os[k], origins)]
  }

  function ModelOf(s: BackendSnapshot): Model {
    Model(VariablesOf(s.variables, s.origins), RowsOf(s.rows, s.origins), ObjectivesOf(s.objectives, s.origins),
      s.policy)
  }

  lemma SnapshotPolicy(s: BackendSnapshot)
    ensures ModelOf(s).policy == s.policy
  {
  }

  lemma {:induction false} VariablesOfKeys(vs: seq<CompiledVariable>, origins: Origins)
    ensures forall id :: id in VariablesOf(vs, origins) <==> exists i :: 0 <= i < |vs| && vs[i].id == id
  {
    if |vs| != 0 {
      VariablesOfKeys(vs[..|vs| - 1], origins);
    }
  }

  lemma {:induction false} RowsOfKeys(rs: seq<CompiledRow>, origins: Origins)
    ensures forall id :: id in RowsOf(rs, origins) <==> exists i :: 0 <= i < |rs| && rs[i].id == id
  {
    if |rs| != 0 {
      RowsOfKeys(rs[..|rs| - 1], origins);
    }
  }

  lemma {:induction false} ObjectivesOfKeys(os: seq<CompiledObjective>, origins: Origins)
    ensures forall id :: id in ObjectivesOf(os, origins) <==> exists i :: 0 <= i < |os| && os[i].id == id
  {
    if |os| != 0 {
      ObjectivesOfKeys(os[..|os| - 1], origins);
    }
  }

  /** Every stored entity is one the snapshot lists. */
  lemma {:induction false} VariablesOfListed(vs: seq<CompiledVariable>, origins: Origins, id: VariableId)
    requires id in VariablesOf(vs, origins)
    ensures exists i :: 0 <= i < |vs| && vs[i].id == id && VariablesOf(vs, origins)[id] == NewVariable(vs[i], origins)
  {
    var k := |vs| - 1;
    if id == vs[k].id {
      assert vs[k].id == id;
    } else {
      VariablesOfListed(vs[..k], origins, id);
      var i :| 0 <= i < k && vs[..k][i].id == id &&
        VariablesOf(vs[..k], origins)[id] == NewVariable(vs[..k][i], origins);
      assert vs[i] == vs[..k][i];
    }
  }

  lemma {:induction false} RowsOfListed(rs: seq<CompiledRow>, origins: Origins, id: RowId)
    requires id in RowsOf(rs, origins)
    ensures exists i :: 0 <= i < |rs| && rs[i].id == id && RowsOf(rs, origins)[id] == NewRow(rs[i], origins)
  {
    var k := |rs| - 1;
    if id == rs[k].id {
      assert rs[k].id == id;
    } else {
      RowsOfListed(rs[..k], origins, id);
      var i :| 0 <= i < k && rs[..k][i].id == id && RowsOf(rs[..k], origins)[id] == NewRow(rs[..k][i], origins);
      assert rs[i] == rs[..k][i];
    }
  }

  lemma {:induction false} ObjectivesOfListed(os: seq<CompiledObjective>, origins: Origins, id: ObjectiveId)
    requires id in ObjectivesOf(os, origins)
    ensures exists i :: 0 <= i < |os| && os[i].id == id && ObjectivesOf(os, origins)[id] == NewObjective(os[i], origins)
  {
    var k := |os| - 1;
    if id == os[k].id {
      assert os[k].id == id;
    } else {
      ObjectivesOfListed(os[..k], origins, id);
      var i :| 0 <= i < k && os[..k][i].id == id &&
        ObjectivesOf(os[..k], origins)[id] == NewObjective(os[..k][i], origins);
      assert os[i] == os[..k][i];
    }
  }

  lemma SoundSnapshotResolves(s: BackendSnapshot)
    requires RowsRefer(s) && ObjectivesRefer(s)
    ensures ReferencesResolve(ModelOf(s))
  {
    hide RowsRefer, ObjectivesRefer, VariablesOf, RowsOf, ObjectivesOf;
    SnapshotRowsResolve(s);
    SnapshotObjectivesResolve(s);
  }

  /** A snapshot whose references resolve and that stems from user objectives describes a well-formed model. */
  lemma SoundSnapshotIsWellFormed(s: BackendSnapshot)
    requires RowsRefer(s) && ObjectivesRefer(s) && PolicyResolves(s.policy, ObjectiveIds(s))
    requires Representable(s.policy) && ObjectivesAreUsers(ModelOf(s))
    ensures WellFormed(ModelOf(s))
  {
    hide RowsRefer, ObjectivesRefer, ObjectivesAreUsers, ReferencesResolve, VariablesOf, RowsOf, ObjectivesOf;
    SoundSnapshotResolves(s);
    ObjectivesOfKeys(s.objectives, s.origins);
  }

  lemma SnapshotRowsResolve(s: BackendSnapshot)
    requires RowsRefer(s)
    ensures forall r :: r in ModelOf(s).rows ==> ModelOf(s).rows[r].coefficients.Keys <= ModelOf(s).variables.Keys
  {
    hide ToMap, VariablesOf, RowsOf;
    var m := ModelOf(s);
    VariablesOfKeys(s.variables, s.origins);
    assert VariableIds(s) <= m.variables.Keys;
    forall r | r in m.rows
      ensures m.rows[r].coefficients.Keys <= m.variables.Keys
    {
      RowsOfListed(s.rows, s.origins, r);
      var i :| 0 <= i < |s.rows| && s.rows[i].id == r && m.rows[r] == NewRow(s.rows[i], s.origins);
      ToMapRefers(s.rows[i].coefficients, VariableIds(s));
    }
  }

  lemma SnapshotObjectivesResolve(s: BackendSnapshot)
    requires ObjectivesRefer(s)
    ensures forall o :: o in ModelOf(s).objectives ==> ModelOf(s).objectives[o].costs.Keys <= ModelOf(s).variables.Keys
  {
    hide ToMap, VariablesOf, ObjectivesOf;
    var m := ModelOf(s);
    VariablesOfKeys(s.variables, s.origins);
    assert VariableIds(s) <= m.variables.Keys;
    forall o | o in m.objectives
      ensures m.objectives[o].costs.Keys <= m.variables.Keys
    {
      ObjectivesOfListed(s.objectives, s.origins, o);
      var i :| 0 <= i < |s.objectives| && s.objectives[i].id == o &&
        m.objectives[o] == NewObjective(s.objectives[i], s.origins);
      ToMapRefers(s.objectives[i].coefficients, VariableIds(s));
    }
  }

  lemma SoundSnapshotRefers(s: BackendSnapshot)
    requires SnapshotSound(s)
    ensures forall i :: 0 <= i < |s.rows| ==> Refers(s.rows[i].coefficients, ModelOf(s).variables.Keys)
    ensures forall i :: 0 <= i < |s.variables| ==> s.variables[i].id in s.origins.variables
    ensures forall i :: 0 <= i < |s.rows| ==> s.rows[i].id in s.origins.rows
    ensures forall i :: 0 <= i < |s.objectives| ==> s.objectives[i].id in s.origins.objectives
  {
    VariablesOfKeys(s.variables, s.origins);
    assert VariableIds(s) <= ModelOf(s).variables.Keys;
  }

  lemma VariablesOfNext(vs: seq<CompiledVariable>, k: nat, origins: Origins)
    requires k < |vs|
    ensures VariablesOf(vs[..k + 1], origins) == VariablesOf(vs[..k], origins)[vs[k].id := NewVariable(vs[k], origins)]
  {
    assert vs[..k + 1][..k] == vs[..k];
  }

  lemma RowsOfNext(rs: seq<CompiledRow>, k: nat, origins: Origins)
    requires k < |rs|
    ensures RowsOf(rs[..k + 1], origins) == RowsOf(rs[..k], origins)[rs[k].id := NewRow(rs[k], origins)]
  {
    assert rs[..k + 1][..k] == rs[..k];
  }

  lemma ObjectivesOfNext(os: seq<CompiledObjective>, k: nat, origins: Origins)
    requires k < |os|
    ensures ObjectivesOf(os[..k + 1], origins) ==
        ObjectivesOf(os[..k], origins)[os[k].id := NewObjective(os[k], origins)]
  {
    assert os[..k + 1][..k] == os[..k];
  }

  /** No entry repeats an earlier id, so none overrides another. */
  ghost predicate VariablesFresh(vs: seq<CompiledVariable>, origins: Origins) {
    forall i :: 0 <= i < |vs| ==> vs[i].id !in VariablesOf(vs[..i], origins)
  }

  ghost predicate RowsFresh(rs: seq<CompiledRow>, origins: Origins) {
    forall i :: 0 <= i < |rs| ==> rs[i].id !in RowsOf(rs[..i], origins)
  }

  ghost predicate ObjectivesFresh(os: seq<CompiledObjective>, origins: Origins) {
    forall i :: 0 <= i < |os| ==> os[i].id !in ObjectivesOf(os[..i], origins)
  }

  lemma UniqueIdsAreFresh(s: BackendSnapshot)
    requires IdsUnique(s)
    ensures VariablesFresh(s.variables, s.origins) && RowsFresh(s.rows, s.origins)
    ensures ObjectivesFresh(s.objectives, s.origins)
  {
    forall i | 0 <= i < |s.variables|
      ensures s.variables[i].id !in VariablesOf(s.variables[..i], s.origins)
    {
      VariablesOfKeys(s.variables[..i], s.origins);
    }
    forall i | 0 <= i < |s.rows|
      ensures s.rows[i].id !in RowsOf(s.rows[..i], s.origins)
    {
      RowsOfKeys(s.rows[..i], s.origins);
    }
    forall i | 0 <= i < |s.objectives|
      ensures s.objectives[i].id !in ObjectivesOf(s.objectives[..i], s.origins)
    {
      ObjectivesOfKeys(s.objectives[..i], s.origins);
    }
  }
}
