/** The stable sort of the standard library, and why its two promises leave no choice. */
module Sorting {

  function Insert<T>(sorted: seq<T>, x: T, key: T -> nat): seq<T> {
    if |sorted| == 0 then [x]
    else
      var k := |sorted| - 1;
      if key(sorted[k]) <= key(x) then sorted + [x] else Insert(sorted[..k], x, key) + [sorted[k]]
  }

  function StableSort<T>(s: seq<T>, key: T -> nat): seq<T> {
    if |s| == 0 then [] else Insert(StableSort(s[..|s| - 1], key), s[|s| - 1], key)
  }

  ghost predicate SortedBy<T>(s: seq<T>, key: T -> nat) {
    forall i, j :: 0 <= i < j < |s| ==> key(s[i]) <= key(s[j])
  }

  /** The elements with one key, in order. */
  function WithKey<T>(s: seq<T>, key: T -> nat, k: nat): seq<T> {
    if |s| == 0 then [] else WithKey(s[..|s| - 1], key, k) + if key(s[|s| - 1]) == k then [s[|s| - 1]] else []
  }

  lemma WithKeySnoc<T>(s: seq<T>, x: T, key: T -> nat, k: nat)
    ensures WithKey(s + [x], key, k) == WithKey(s, key, k) + if key(x) == k then [x] else []
  {
    assert (s + [x])[..|s|] == s;
  }

  lemma {:induction false} InsertMembers<T>(sorted: seq<T>, x: T, key: T -> nat)
    ensures forall y :: y in Insert(sorted, x, key) <==> y == x || y in sorted
  {
    if |sorted| != 0 {
      var k := |sorted| - 1;
      InsertMembers(sorted[..k], x, key);
      assert forall y :: y in sorted <==> y in sorted[..k] || y == sorted[k];
    }
  }

  lemma InsertedMember<T>(sorted: seq<T>, x: T, key: T -> nat, y: T)
    requires y in Insert(sorted, x, key)
    ensures y == x || y in sorted
  {
    InsertMembers(sorted, x, key);
  }

  lemma {:induction false} InsertSorts<T>(sorted: seq<T>, x: T, key: T -> nat)
    requires SortedBy(sorted, key)
    ensures SortedBy(Insert(sorted, x, key), key)
  {
    if |sorted| != 0 && key(sorted[|sorted| - 1]) > key(x) {
      var k := |sorted| - 1;
      InsertSorts(sorted[..k], x, key);
      InsertMembers(sorted[..k], x, key);
      var front := Insert(sorted[..k], x, key);
      forall i | 0 <= i < |front|
        ensures key(front[i]) <= key(sorted[k])
      {
        InsertedMember(sorted[..k], x, key, front[i]);
        if front[i] != x {
          var j :| 0 <= j < |sorted[..k]| && sorted[..k][j] == front[i];
          assert sorted[j] == front[i];
        }
      }
    }
  }

  /** An element is inserted behind every element with the same key. */
  lemma {:induction false} InsertKeepsOrder<T>(sorted: seq<T>, x: T, key: T -> nat, k: nat)
    requires SortedBy(sorted, key)
    ensures WithKey(Insert(sorted, x, key), key, k) == WithKey(sorted, key, k) + if key(x) == k then [x] else []
  {
    WithKeySnoc(sorted, x, key, k);
    if |sorted| == 0 {
      assert [] + [x] == [x];
    } else if key(sorted[|sorted| - 1]) > key(x) {
      var n := |sorted| - 1;
      InsertKeepsOrder(sorted[..n], x, key, k);
      WithKeySnoc(Insert(sorted[..n], x, key), sorted[n], key, k);
    }
  }

  /** The sort sorts and is stable. */
  lemma {:induction false} StableSortIsStable<T>(s: seq<T>, key: T -> nat, k: nat)
    ensures SortedBy(StableSort(s, key), key)
    ensures WithKey(StableSort(s, key), key, k) == WithKey(s, key, k)
  {
    if |s| != 0 {
      var n := |s| - 1;
      StableSortIsStable(s[..n], key, k);
      InsertSorts(StableSort(s[..n], key), s[n], key);
      InsertKeepsOrder(StableSort(s[..n], key), s[n], key, k);
    }
  }

  lemma {:induction false} WithKeyMembers<T>(s: seq<T>, key: T -> nat, k: nat)
    ensures forall x :: x in WithKey(s, key, k) <==> x in s && key(x) == k
  {
    if |s| != 0 {
      var n := |s| - 1;
      WithKeyMembers(s[..n], key, k);
      assert forall x :: x in s <==> x in s[..n] || x == s[n];
    }
  }

  lemma StableSortMembers<T>(s: seq<T>, key: T -> nat)
    ensures forall x :: x in StableSort(s, key) <==> x in s
  {
    forall x
      ensures x in StableSort(s, key) <==> x in s
    {
      StableSortIsStable(s, key, key(x));
      WithKeyMembers(s, key, key(x));
      WithKeyMembers(StableSort(s, key), key, key(x));
    }
  }

  lemma {:induction false} InsertLength<T>(sorted: seq<T>, x: T, key: T -> nat)
    ensures |Insert(sorted, x, key)| == |sorted| + 1
  {
    if |sorted| != 0 { InsertLength(sorted[..|sorted| - 1], x, key); }
  }

  lemma {:induction false} StableSortLength<T>(s: seq<T>, key: T -> nat)
    ensures |StableSort(s, key)| == |s|
  {
    if |s| != 0 {
      StableSortLength(s[..|s| - 1], key);
      InsertLength(StableSort(s[..|s| - 1], key), s[|s| - 1], key);
    }
  }

  /** Sortedness and the order within each key determine the sequence: any stable sort gives the same result. */
  lemma {:induction false} StableSortIsUnique<T(!new)>(a: seq<T>, b: seq<T>, key: T -> nat)
    requires SortedBy(a, key) && SortedBy(b, key)
    requires forall k :: WithKey(a, key, k) == WithKey(b, key, k)
    ensures a == b
  {
    if |a| == 0 || |b| == 0 {
      SomeKey(a, key);
      SomeKey(b, key);
    } else {
      var m, n := |a| - 1, |b| - 1;
      LastHasGreatestKey(a, b, key);
      LastHasGreatestKey(b, a, key);
      var k := key(a[m]);
      assert key(b[n]) == k && WithKey(a, key, k) == WithKey(b, key, k);
      SnocInjective(WithKey(a[..m], key, k), a[m], WithKey(b[..n], key, k), b[n]);
      forall j
        ensures WithKey(a[..m], key, j) == WithKey(b[..n], key, j)
      {
        if j != k {
          assert WithKey(a, key, j) == WithKey(a[..m], key, j);
          assert WithKey(b, key, j) == WithKey(b[..n], key, j);
        }
      }
      StableSortIsUnique(a[..m], b[..n], key);
      assert a == a[..m] + [a[m]] && b == b[..n] + [b[n]];
    }
  }

  lemma SomeKey<T>(s: seq<T>, key: T -> nat)
    ensures |s| != 0 ==> WithKey(s, key, key(s[0])) != []
  {
    if |s| != 0 {
      WithKeyMembers(s, key, key(s[0]));
      assert s[0] in WithKey(s, key, key(s[0]));
    }
  }

  lemma SnocInjective<T>(p: seq<T>, x: T, q: seq<T>, y: T)
    requires p + [x] == q + [y]
    ensures p == q && x == y
  {
    assert (p + [x])[|p|] == x && (q + [y])[|q|] == y;
    assert (p + [x])[..|p|] == p && (q + [y])[..|q|] == q;
  }

  lemma LastHasGreatestKey<T(!new)>(a: seq<T>, b: seq<T>, key: T -> nat)
    requires |a| != 0 && |b| != 0 && SortedBy(a, key)
    requires forall k :: WithKey(a, key, k) == WithKey(b, key, k)
    ensures key(b[|b| - 1]) <= key(a[|a| - 1])
  {
    var last := b[|b| - 1];
    WithKeyMembers(b, key, key(last));
    WithKeyMembers(a, key, key(last));
    assert last in WithKey(a, key, key(last));
    var i :| 0 <= i < |a| && a[i] == last;
  }

  // ---------------------------------------------------------------- one element per key

  ghost predicate AscendingBy<T>(s: seq<T>, key: T -> nat) {
    forall i, j :: 0 <= i < j < |s| ==> key(s[i]) < key(s[j])
  }

  ghost predicate OncePerKey<T>(s: seq<T>, key: T -> nat) {
    forall k :: |WithKey(s, key, k)| <= 1
  }

  lemma {:induction false} WithKeyAppend<T>(a: seq<T>, b: seq<T>, key: T -> nat, k: nat)
    ensures WithKey(a + b, key, k) == WithKey(a, key, k) + WithKey(b, key, k)
  {
    if |b| == 0 {
      assert a + b == a;
    } else {
      var n := |b| - 1;
      assert a + b == (a + b[..n]) + [b[n]];
      WithKeySnoc(a + b[..n], b[n], key, k);
      WithKeyAppend(a, b[..n], key, k);
    }
  }

  lemma {:induction false} WithoutKey<T>(s: seq<T>, key: T -> nat, k: nat)
    requires forall i :: 0 <= i < |s| ==> key(s[i]) != k
    ensures WithKey(s, key, k) == []
  {
    if |s| != 0 { WithoutKey(s[..|s| - 1], key, k); }
  }

  lemma {:induction false} DistinctKeys<T>(s: seq<T>, key: T -> nat, k: nat)
    requires forall i, j :: 0 <= i < j < |s| ==> key(s[i]) != key(s[j])
    ensures |WithKey(s, key, k)| <= 1
  {
    if |s| != 0 {
      var n := |s| - 1;
      if key(s[n]) == k {
        WithoutKey(s[..n], key, k);
      } else {
        DistinctKeys(s[..n], key, k);
      }
    }
  }

  /** Two elements with one key are two elements of its list. */
  lemma {:induction false} SameKeyTwice<T>(s: seq<T>, key: T -> nat, i: nat, j: nat)
    requires i < j < |s|
    ensures key(s[i]) == key(s[j]) ==> |WithKey(s, key, key(s[i]))| >= 2
  {
    var n := |s| - 1;
    WithKeyMembers(s[..n], key, key(s[i]));
    assert s[..n][i] == s[i];
    if j < n {
      SameKeyTwice(s[..n], key, i, j);
    }
  }

  lemma OnceAscends<T>(s: seq<T>, key: T -> nat)
    requires SortedBy(s, key) && OncePerKey(s, key)
    ensures AscendingBy(s, key)
  {
    forall i, j | 0 <= i < j < |s|
      ensures key(s[i]) < key(s[j])
    {
      SameKeyTwice(s, key, i, j);
    }
  }

  /** Sorting a sequence with one element per key puts the keys in strictly ascending order. */
  lemma SortAscends<T>(s: seq<T>, key: T -> nat)
    requires OncePerKey(s, key)
    ensures AscendingBy(StableSort(s, key), key)
  {
    StableSortIsStable(s, key, 0);
    forall k
      ensures |WithKey(StableSort(s, key), key, k)| <= 1
    {
      StableSortIsStable(s, key, k);
    }
    OnceAscends(StableSort(s, key), key);
  }

  lemma SameEmptiness<T>(a: seq<T>, b: seq<T>)
    requires forall x :: x in a <==> x in b
    ensures |a| == 0 <==> |b| == 0
  {
    assert |a| != 0 ==> a[0] in a;
    assert |b| != 0 ==> b[0] in b;
  }

  /** Its members and the strict order determine a sequence. */
  lemma {:induction false} AscendingIsUnique<T(!new)>(a: seq<T>, b: seq<T>, key: T -> nat)
    requires AscendingBy(a, key) && AscendingBy(b, key) && forall x :: x in a <==> x in b
    ensures a == b
  {
    SameEmptiness(a, b);
    if |a| != 0 {
      var m, n := |a| - 1, |b| - 1;
      assert a[m] in b && b[n] in a;
      var i :| 0 <= i <= n && b[i] == a[m];
      var j :| 0 <= j <= m && a[j] == b[n];
      assert i == n && j == m;
      forall x
        ensures x in a[..m] <==> x in b[..n]
      {
        ButLast(a, key, x);
        ButLast(b, key, x);
      }
      AscendingIsUnique(a[..m], b[..n], key);
      assert a == a[..m] + [a[m]] && b == b[..n] + [b[n]];
    }
  }

  lemma ButLast<T>(s: seq<T>, key: T -> nat, x: T)
    requires AscendingBy(s, key) && |s| != 0
    ensures x in s[..|s| - 1] <==> x in s && x != s[|s| - 1]
  {
  }
}
