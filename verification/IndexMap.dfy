/** roml-highs/src/index_map.rs: stable ids to dense native indices. */
module IndexMaps {
  import opened Common

  /** `m` numbers exactly the ids of `order`, each by its place in `order`. */
  ghost predicate Numbers<Id(!new)>(m: map<Id, int>, order: seq<Id>) {
    && Distinct(order)
    && (forall id :: id in m <==> id in order)
    && (forall i {:trigger order[i]} :: 0 <= i < |order| ==> m[order[i]] == i)
  }

  function Shifted<Id>(m: map<Id, int>, deleted: int): map<Id, int> {
    map id | id in m :: if m[id] > deleted then m[id] - 1 else m[id]
  }

  /** A dense numbering reaches every index below its size, and each once. */
  lemma NumbersIsBijection<Id(!new)>(m: map<Id, int>, order: seq<Id>)
    requires Numbers(m, order)
    ensures forall id :: id in m ==> 0 <= m[id] < |order| && order[m[id]] == id
    ensures forall a, b :: a in m && b in m && m[a] == m[b] ==> a == b
  {
    forall id | id in m
      ensures 0 <= m[id] < |order| && order[m[id]] == id
    {
      var i :| 0 <= i < |order| && order[i] == id;
    }
  }

  lemma NumbersAppend<Id(!new)>(m: map<Id, int>, order: seq<Id>, id: Id)
    requires Numbers(m, order) && id !in m
    ensures Numbers(m[id := |order|], order + [id])
  {
  }

  /** Removing an id and closing the gap numbers the remaining ids in the same order. */
  lemma NumbersDelete<Id(!new)>(m: map<Id, int>, order: seq<Id>, id: Id)
    requires Numbers(m, order) && id in m
    ensures 0 <= m[id] < |order| && order[m[id]] == id
    ensures Numbers(Shifted(m - {id}, m[id]), order[..m[id]] + order[m[id] + 1..])
  {
    NumbersIsBijection(m, order);
    ClosesGap(order, m[id]);
    GapMembers(order, m[id]);
  }

  // ---------------------------------------------------------------- values written at the indices of ids

  ghost predicate Hits<Id(!new), V>(at: map<Id, int>, values: map<Id, V>, i: int, x: Id) {
    x in values && x in at && at[x] == i
  }

  ghost function Written<Id(!new), T, V>(was: T, i: int, at: map<Id, int>, values: map<Id, V>, with: (T, V) -> T): T {
    if exists x :: Hits(at, values, i, x) then
      var x :| Hits(at, values, i, x);
      with(was, values[x])
    else was
  }

  lemma WrittenOnce<Id(!new), T, V>(was: T, i: int, at: map<Id, int>, values: map<Id, V>, with: (T, V) -> T, x: Id)
    requires OneToOne(at) && Hits(at, values, i, x)
    ensures Written(was, i, at, values, with) == with(was, values[x])
  {
  }

  /** Every value written at the index of its id, in any order; ids without an index are skipped. */
  ghost function AllWritten<Id(!new), T, V>(
      s: seq<T>, at: map<Id, int>, values: map<Id, V>, with: (T, V) -> T): (r: seq<T>)
    ensures |r| == |s| && forall i :: 0 <= i < |s| ==> r[i] == Written(s[i], i, at, values, with)
  {
    seq(|s|, i requires 0 <= i < |s| => Written(s[i], i, at, values, with))
  }

  lemma AllWrittenNothing<Id(!new), T, V>(s: seq<T>, at: map<Id, int>, with: (T, V) -> T)
    ensures AllWritten(s, at, map[], with) == s
  {
  }

  /** One more or one fewer value matters only at its own index. */
  lemma WrittenElsewhere<Id(!new), T, V>(
      was: T, i: int, at: map<Id, int>, a: map<Id, V>, b: map<Id, V>, with: (T, V) -> T, x: Id)
    requires OneToOne(at) && x in at && at[x] != i && a - {x} == b - {x}
    ensures Written(was, i, at, a, with) == Written(was, i, at, b, with)
  {
    if y :| Hits(at, a, i, y) {
      assert y in a - {x} && y in b - {x};
      assert (a - {x})[y] == a[y] && (b - {x})[y] == b[y];
      WrittenOnce(was, i, at, a, with, y);
      WrittenOnce(was, i, at, b, with, y);
    } else if y :| Hits(at, b, i, y) {
      assert y in b - {x} && y in a - {x};
      assert Hits(at, a, i, y);
    }
  }

  /** Writing one more value, last. */
  lemma AllWrittenNext<Id(!new), T, V>(s: seq<T>, at: map<Id, int>, done: map<Id, V>, with: (T, V) -> T, x: Id, b: V)
    requires OneToOne(at) && x in at && 0 <= at[x] < |s| && x !in done
    ensures AllWritten(s, at, done, with)[at[x]] == s[at[x]]
    ensures AllWritten(s, at, done[x := b], with) == AllWritten(s, at, done, with)[at[x] := with(s[at[x]], b)]
  {
    var more, k := done[x := b], at[x];
    assert Hits(at, more, k, x);
    WrittenOnce(s[k], k, at, more, with, x);
    forall i | 0 <= i < |s| && i != k
      ensures Written(s[i], i, at, more, with) == Written(s[i], i, at, done, with)
    {
      assert more - {x} == done - {x};
      WrittenElsewhere(s[i], i, at, more, done, with, x);
    }
  }

  lemma AllWrittenAbsent<Id(!new), T, V>(
      s: seq<T>, at: map<Id, int>, done: map<Id, V>, with: (T, V) -> T, x: Id, b: V)
    requires OneToOne(at) && x !in at
    ensures AllWritten(s, at, done[x := b], with) == AllWritten(s, at, done, with)
  {
    var more := done[x := b];
    forall i | 0 <= i < |s|
      ensures Written(s[i], i, at, more, with) == Written(s[i], i, at, done, with)
    {
      assert forall y :: Hits(at, more, i, y) <==> Hits(at, done, i, y);
      if y :| Hits(at, done, i, y) {
        WrittenOnce(s[i], i, at, more, with, y);
        WrittenOnce(s[i], i, at, done, with, y);
      }
    }
  }

  /** Writing one of the values first. */
  lemma AllWrittenFirst<Id(!new), T, V>(s: seq<T>, at: map<Id, int>, values: map<Id, V>, with: (T, V) -> T, x: Id)
    requires OneToOne(at) && x in at && 0 <= at[x] < |s| && x in values
    ensures AllWritten(s, at, values, with) == AllWritten(s[at[x] := with(s[at[x]], values[x])], at, values - {x}, with)
  {
    var rest, k := values - {x}, at[x];
    var t := s[k := with(s[k], values[x])];
    assert Hits(at, values, k, x);
    WrittenOnce(s[k], k, at, values, with, x);
    forall i | 0 <= i < |s| && i != k
      ensures Written(s[i], i, at, values, with) == Written(t[i], i, at, rest, with)
    {
      assert values - {x} == rest - {x};
      WrittenElsewhere(s[i], i, at, values, rest, with, x);
    }
  }

  /** Writing what is there already changes nothing. */
  lemma AllWrittenSame<Id(!new), T, V>(s: seq<T>, at: map<Id, int>, values: map<Id, V>, with: (T, V) -> T)
    requires forall x :: x in values && x in at && 0 <= at[x] < |s| ==> with(s[at[x]], values[x]) == s[at[x]]
    ensures AllWritten(s, at, values, with) == s
  {
  }

  class IndexMap<Id(==, !new)> {
    var idToIdx: map<Id, int>

    constructor ()
      ensures idToIdx == map[]
    {
      idToIdx := map[];
    }

    /** The Rust callers overwrite the whole struct with `IndexMap::new()`. */
    method Reset()
      modifies this
      ensures idToIdx == map[]
    {
      idToIdx := map[];
    }

    method Insert(id: Id, idx: int)
      modifies this
      ensures idToIdx == old(idToIdx)[id := idx]
    {
      idToIdx := idToIdx[id := idx];
    }

    function Get(id: Id): (r: Option<int>)
      reads this
    {
      if id in idToIdx then Some(idToIdx[id]) else None
    }

    method Remove(id: Id) returns (r: Option<int>)
      modifies this
      ensures r == old(Get(id))
      ensures idToIdx == old(idToIdx) - {id}
    {
      r := Get(id);
      idToIdx := idToIdx - {id};
    }

    method ReindexAfterDelete(deleted: int)
      modifies this
      ensures idToIdx == Shifted(old(idToIdx), deleted)
      ensures idToIdx.Keys == old(idToIdx).Keys
      ensures forall id :: id in idToIdx ==>
        var was := old(idToIdx)[id];
        idToIdx[id] == if was > deleted then was - 1 else was
    {
      var todo := idToIdx.Keys;
      while todo != {}
        invariant todo <= idToIdx.Keys == old(idToIdx).Keys
        invariant forall id :: id in idToIdx ==>
          idToIdx[id] == if id in todo then old(idToIdx)[id] else Shifted(old(idToIdx), deleted)[id]
        decreases todo
      {
        var id :| id in todo;
        if idToIdx[id] > deleted {
          idToIdx := idToIdx[id := idToIdx[id] - 1];
        }
        todo := todo - {id};
      }
    }

    /** Native index back to id; inverse to the map when the map is a dense numbering. */
    method ReverseMap(ghost order: seq<Id>) returns (r: map<int, Id>)
      requires Numbers(idToIdx, order)
      ensures forall i :: i in r <==> 0 <= i < |order|
      ensures forall i :: 0 <= i < |order| ==> r[i] == order[i]
      ensures forall id :: id in idToIdx ==> idToIdx[id] in r && r[idToIdx[id]] == id
    {
      NumbersIsBijection(idToIdx, order);
      r := map[];
      var todo := idToIdx.Keys;
      while todo != {}
        invariant todo <= idToIdx.Keys
        invariant forall i :: i in r ==> 0 <= i < |order| && r[i] == order[i] && order[i] !in todo
        invariant forall id :: id in idToIdx && id !in todo ==> idToIdx[id] in r
        decreases todo
      {
        var id :| id in todo;
        r := r[idToIdx[id] := id];
        todo := todo - {id};
      }
      forall i | 0 <= i < |order|
        ensures i in r
      {
        assert order[i] in idToIdx;
      }
    }
  }
}
