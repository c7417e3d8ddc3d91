/** Option values and a few facts about sequences that several modules share. */
module Common {

  datatype Option<+T> = None | Some(value: T)

  ghost predicate Distinct<T(!new)>(s: seq<T>) {
    forall i, j :: 0 <= i < j < |s| ==> s[i] != s[j]
  }

  /** No two keys share a value. */
  ghost predicate OneToOne<K(!new), V>(f: map<K, V>) {
    forall x, y :: x in f && y in f && f[x] == f[y] ==> x == y
  }

  lemma TakeNext<T>(before: seq<T>, s: seq<T>, i: nat)
    requires i < |s|
    ensures before + s[..i + 1] == before + s[..i] + [s[i]] && s[..i + 1] == s[..i] + [s[i]]
  {
  }

  lemma TakeEnds<T>(before: seq<T>, s: seq<T>)
    ensures before + s[..0] == before && before + s[..|s|] == before + s && s[..|s|] == s
  {
  }

  /** The sequence `s` without the positions in `drop`; the rest closes the gaps. */
  function WithoutPositions<T>(s: seq<T>, drop: set<int>): (r: seq<T>) {
    if |s| == 0 then []
    else
      var last := |s| - 1;
      WithoutPositions(s[..last], drop) + if last in drop then [] else [s[last]]
  }

  /** Dropping one position shifts everything behind it down by one. */
  lemma {:induction false} WithoutOnePosition<T>(s: seq<T>, k: nat, drop: set<int>)
    requires k < |s|
    requires forall i :: 0 <= i < |s| ==> (i in drop <==> i == k)
    ensures WithoutPositions(s, drop) == s[..k] + s[k + 1..]
  {
    var last := |s| - 1;
    if k == last {
      WithoutNoPosition(s[..last], drop);
    } else {
      WithoutOnePosition(s[..last], k, drop);
      assert s[..last][..k] == s[..k];
      assert s[..last][k + 1..] + [s[last]] == s[k + 1..];
    }
  }

  lemma {:induction false} WithoutNoPosition<T>(s: seq<T>, drop: set<int>)
    requires forall i :: 0 <= i < |s| ==> i !in drop
    ensures WithoutPositions(s, drop) == s
  {
    if |s| != 0 {
      WithoutNoPosition(s[..|s| - 1], drop);
    }
  }

  /** Dropping exactly a tail keeps the head where it was. */
  lemma {:induction false} WithoutTail<T>(s: seq<T>, n: nat, drop: set<int>)
    requires n <= |s|
    requires forall i :: 0 <= i < |s| ==> (i in drop <==> n <= i)
    ensures WithoutPositions(s, drop) == s[..n]
  {
    if n == |s| {
      WithoutNoPosition(s, drop);
    } else {
      var last := |s| - 1;
      WithoutTail(s[..last], n, drop);
      assert s[..last][..n] == s[..n];
    }
  }

  /** Deleting one position moves everything behind it down by one. */
  lemma ClosesGap<T(!new)>(order: seq<T>, k: nat)
    requires Distinct(order) && k < |order|
    ensures
      var left := order[..k] + order[k + 1..];
      && Distinct(left) && |left| == |order| - 1
      && forall i :: 0 <= i < |left| ==> left[i] == order[if i < k then i else i + 1]
  {
    var left := order[..k] + order[k + 1..];
    assert forall i :: 0 <= i < |left| ==> left[i] == order[if i < k then i else i + 1];
  }

  lemma GapMembers<T(!new)>(order: seq<T>, k: nat)
    requires Distinct(order) && k < |order|
    ensures forall x :: x in order[..k] + order[k + 1..] <==> x in order && x != order[k]
  {
    ClosesGap(order, k);
    var left := order[..k] + order[k + 1..];
    forall x | x in order && x != order[k]
      ensures x in left
    {
      var i :| 0 <= i < |order| && order[i] == x;
      assert left[if i < k then i else i - 1] == x;
    }
  }

  lemma {:induction false} SameLength<T(!new)>(s: seq<T>, t: seq<T>)
    requires Distinct(s) && Distinct(t) && forall x :: x in s <==> x in t
    ensures |s| == |t|
  {
    CountsElements(s);
    CountsElements(t);
    assert (set x | x in s) == (set x | x in t);
  }

  lemma {:induction false} CountsElements<T(!new)>(s: seq<T>)
    requires Distinct(s)
    ensures |set x | x in s| == |s|
  {
    if |s| != 0 {
      var k := |s| - 1;
      CountsElements(s[..k]);
      assert (set x | x in s) == (set x | x in s[..k]) + {s[k]};
    }
  }

  /** A sequence that lists every id once has as many entries as there are ids. */
  lemma LayoutCounts<T(!new)>(order: seq<T>, ids: set<T>)
    requires Distinct(order) && forall x :: x in order <==> x in ids
    ensures |order| == |ids|
  {
    CountsElements(order);
    assert (set x | x in order) == ids;
  }
}
