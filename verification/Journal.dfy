/** src/journal.rs: a bounded log of committed batches, oldest evicted first. */
module Journals {
  import opened Common

  datatype Batch<Op> = Batch(from: nat, to: nat, operations: seq<Op>)

  datatype RevisionError = Overflow | Compacted(revision: nat) | FutureRevision(requested: nat, current: nat)
  datatype Result<T> = Success(value: T) | Failure(error: RevisionError)

  // ---------------------------------------------------------------- the whole history

  /** The revision after the first `i` batches. */
  function Reached<Op>(history: seq<Batch<Op>>, i: nat): nat
    requires i <= |history|
  {
    if i == 0 then 0 else history[i - 1].to
  }

  /** Every batch starts where the one before it ended, and moves on. */
  ghost predicate Chain<Op>(history: seq<Batch<Op>>) {
    forall i {:trigger Reached(history, i)} ::
      0 <= i < |history| ==> history[i].from == Reached(history, i) && history[i].from < history[i].to
  }

  lemma {:induction false} ReachedGrows<Op>(history: seq<Batch<Op>>, i: nat, j: nat)
    requires Chain(history) && i < j <= |history|
    ensures Reached(history, i) < Reached(history, j)
    decreases j - i
  {
    assert Reached(history, j - 1) == history[j - 1].from < Reached(history, j);
    if i < j - 1 { ReachedGrows(history, i, j - 1); }
  }

  /** The batches of the whole history that start at or after a revision. */
  function StartingAt<Op>(history: seq<Batch<Op>>, since: nat): seq<Batch<Op>> {
    if |history| == 0 then []
    else
      var k := |history| - 1;
      StartingAt(history[..k], since) + if since <= history[k].from then [history[k]] else []
  }

  lemma {:induction false} StartingAtIsSuffix<Op>(history: seq<Batch<Op>>, since: nat, i: nat)
    requires i <= |history|
    requires forall j :: 0 <= j < |history| ==> (since <= history[j].from <==> i <= j)
    ensures StartingAt(history, since) == history[i..]
  {
    if |history| != 0 {
      var k := |history| - 1;
      if i == |history| {
        StartingAtIsSuffix(history[..k], since, k);
      } else {
        StartingAtIsSuffix(history[..k], since, i);
        assert history[..k][i..] + [history[k]] == history[i..];
      }
    }
  }

  lemma StartsInOrder<Op>(history: seq<Batch<Op>>, i: nat, j: nat)
    requires Chain(history) && i <= |history| && j < |history|
    ensures Reached(history, i) <= history[j].from <==> i <= j
  {
    assert history[j].from == Reached(history, j);
    if i < j { ReachedGrows(history, i, j); }
    if j < i { ReachedGrows(history, j, i); }
  }

  /** From a boundary on, exactly the rest of the history. */
  lemma BoundarySuffix<Op>(history: seq<Batch<Op>>, i: nat)
    requires Chain(history) && i <= |history|
    ensures StartingAt(history, Reached(history, i)) == history[i..]
  {
    hide Chain, Reached, StartingAt;
    forall j | 0 <= j < |history|
      ensures Reached(history, i) <= history[j].from <==> i <= j
    {
      StartsInOrder(history, i, j);
    }
    StartingAtIsSuffix(history, Reached(history, i), i);
  }

  /** An up-to-date answer means what it says exactly when no batch starts before `since` and ends after it. */
  lemma {:induction false} EmptyMeansCurrent<Op>(history: seq<Batch<Op>>, since: nat)
    requires Chain(history) && since <= Reached(history, |history|)
    ensures StartingAt(history, since) == [] <==> |history| == 0 || history[|history| - 1].from < since
    ensures StartingAt(history, since) == [] && since != Reached(history, |history|) <==>
      |history| != 0 && history[|history| - 1].from < since < history[|history| - 1].to
  {
    if |history| != 0 {
      var k := |history| - 1;
      assert history[k].from == Reached(history, k);
      if history[k].from < since {
        forall j | 0 <= j < |history|
          ensures history[j].from < since
        {
          assert history[j].from == Reached(history, j);
          if j < k { ReachedGrows(history, j, k); }
        }
        StartingAtIsSuffix(history, since, |history|);
      }
    }
  }

  /** The shortest such history: after one batch over two revisions, revision 1 looks up to date and is not. */
  lemma InsideRevisionLooksCurrent<Op>(operations: seq<Op>)
    ensures
      var history := [Batch(0, 2, operations)];
      Chain(history) && StartingAt(history, 1) == [] && Reached(history, 1) == 2
  {
    var history := [Batch(0, 2, operations)];
    assert StartingAt(history[..0], 1) == [];
  }

  /** When every batch moves one revision, as staged transactions do, every revision is a boundary. */
  lemma {:induction false} UnitStepsHaveNoInside<Op>(history: seq<Batch<Op>>)
    requires Chain(history) && forall i :: 0 <= i < |history| ==> history[i].to == history[i].from + 1
    ensures forall i :: 0 <= i <= |history| ==> Reached(history, i) == i
  {
    if |history| != 0 {
      var k := |history| - 1;
      assert forall i {:trigger Reached(history, i)} {:trigger Reached(history[..k], i)} ::
        0 <= i <= k ==> Reached(history[..k], i) == Reached(history, i);
      assert Reached(history, k) == history[k].from;
      UnitStepsHaveNoInside(history[..k]);
    }
  }

  /** The replay starts where the cursor stands exactly when the cursor stands on a boundary. */
  lemma OnlyBoundariesReplay<Op>(history: seq<Batch<Op>>, since: nat)
    requires Chain(history) && StartingAt(history, since) != []
    ensures StartingAt(history, since)[0].from == since <==>
        exists i :: 0 <= i <= |history| && Reached(history, i) == since
  {
    var i := FirstStarting(history, since);
    StartingAtIsSuffix(history, since, i);
    assert Reached(history, i) == history[i].from;
    if j: nat :| j <= |history| && Reached(history, j) == since {
      if j < |history| {
        assert history[j].from == since;
        if i < j { ReachedGrows(history, i, j); }
      } else {
        ReachedGrows(history, i, j);
      }
    }
  }

  // ---------------------------------------------------------------- the retained window

  function Kept(capacity: Option<nat>, n: nat): nat {
    if capacity.Some? && capacity.value < n then capacity.value else n
  }

  /** `stored` is the run of batches from position `first` on, indexed by start revision. */
  ghost predicate Stores<Op(!new)>(stored: map<nat, Batch<Op>>, history: seq<Batch<Op>>, first: nat)
    requires first <= |history|
  {
    && (forall i :: first <= i < |history| ==> history[i].from in stored && stored[history[i].from] == history[i])
    && (forall r :: r in stored ==> exists i :: first <= i < |history| && history[i].from == r)
  }

  lemma {:induction false} StoresCounts<Op(!new)>(stored: map<nat, Batch<Op>>, history: seq<Batch<Op>>, first: nat)
    requires Chain(history) && first <= |history| && Stores(stored, history, first)
    ensures |stored| == |history| - first
    decreases |history| - first
  {
    if first == |history| {
      assert stored == map[];
    } else {
      StoresWithoutOldest(stored, history, first);
      StoresCounts(stored - {history[first].from}, history, first + 1);
    }
  }

  /** The least stored revision is that of the oldest retained batch; without it the next one is oldest. */
  lemma StoresWithoutOldest<Op(!new)>(stored: map<nat, Batch<Op>>, history: seq<Batch<Op>>, first: nat)
    requires Chain(history) && first < |history| && Stores(stored, history, first)
    ensures history[first].from in stored && forall r :: r in stored ==> history[first].from <= r
    ensures Stores(stored - {history[first].from}, history, first + 1)
    ensures |stored| == |stored - {history[first].from}| + 1
  {
    var oldest := history[first].from;
    forall i | first < i < |history|
      ensures oldest < history[i].from
    {
      assert Reached(history, first) == oldest && Reached(history, i) == history[i].from;
      ReachedGrows(history, first, i);
    }
    var rest := stored - {oldest};
    assert stored.Keys == rest.Keys + {oldest};
    assert |stored.Keys| == |rest.Keys| + 1;
    forall r | r in rest
      ensures exists i :: first + 1 <= i < |history| && history[i].from == r
    {
      var i :| first <= i < |history| && history[i].from == r;
      assert i != first;
    }
  }

  lemma StoresNonEmpty<Op(!new)>(stored: map<nat, Batch<Op>>, history: seq<Batch<Op>>, first: nat)
    requires first <= |history| && Stores(stored, history, first) && stored != map[]
    ensures first < |history|
  {
    assert stored.Keys != {};
    var some: nat :| some in stored;
  }

  lemma StoresNext<Op(!new)>(stored: map<nat, Batch<Op>>, history: seq<Batch<Op>>, first: nat, batch: Batch<Op>)
    requires first <= |history| && Stores(stored, history, first) && Chain(history + [batch])
    ensures Stores(stored[batch.from := batch], history + [batch], first)
  {
    var grown := history + [batch];
    forall i | first <= i < |history|
      ensures history[i].from != batch.from
    {
      assert Reached(grown, i) == grown[i].from == history[i].from;
      assert Reached(grown, |history|) == grown[|history|].from == batch.from;
      ReachedGrows(grown, i, |history|);
    }
    assert grown[|history|] == batch;
    var more := stored[batch.from := batch];
    forall r | r in more
      ensures exists i :: first <= i < |grown| && grown[i].from == r
    {
      if r == batch.from {
        assert grown[|history|].from == r;
      } else {
        var i :| first <= i < |history| && history[i].from == r;
        assert grown[i].from == r;
      }
    }
  }

  lemma ChainPrefix<Op>(history: seq<Batch<Op>>, batch: Batch<Op>)
    requires Chain(history) && batch.from == Reached(history, |history|) && batch.from < batch.to
    ensures Chain(history + [batch])
    ensures Reached(history + [batch], |history| + 1) == batch.to
  {
    var grown := history + [batch];
    forall i | 0 <= i < |grown|
      ensures grown[i].from == Reached(grown, i) && grown[i].from < grown[i].to
    {
      if i < |history| {
        assert grown[i] == history[i];
        assert Reached(grown, i) == Reached(history, i) == history[i].from;
      }
    }
  }

  // ---------------------------------------------------------------- the journal

  /** The first key of an ordered map. */
  method FirstKey<Op>(stored: map<nat, Batch<Op>>) returns (least: nat)
    requires stored != map[]
    ensures least in stored && forall r :: r in stored ==> least <= r
  {
    least :| least in stored;
    var todo := stored.Keys;
    while todo != {}
      invariant todo <= stored.Keys && least in stored
      invariant forall r :: r in stored && r !in todo ==> least <= r
      decreases todo
    {
      var r :| r in todo;
      if r < least { least := r; }
      todo := todo - {r};
    }
  }

  class Journal<Op(!new)> {
    var batches: map<nat, Batch<Op>>
    var latestRevision: nat
    const capacity: Option<nat>
    /** Everything ever recorded, evicted or not. */
    ghost var history: seq<Batch<Op>>

    ghost predicate Valid()
      reads this
    {
      && capacity != Some(0)
      && Chain(history) && latestRevision == Reached(history, |history|)
      && Stores(batches, history, |history| - Kept(capacity, |history|))
    }

    constructor (capacity: Option<nat>)
      requires capacity != Some(0)
      ensures Valid() && history == [] && this.capacity == capacity
    {
      batches, latestRevision, history := map[], 0, [];
      this.capacity := capacity;
    }

    /**
     * `record`: a batch that starts at the latest revision is appended and the window moves on; any other changes
     * nothing.
     */
    method Record(batch: Batch<Op>) returns (r: Result<()>)
      requires Valid() && batch.from < batch.to
      modifies this
      ensures Valid()
      ensures r.Success? <==> batch.from == old(latestRevision)
      ensures history == if r.Success? then old(history) + [batch] else old(history)
      ensures r.Failure? ==>
        r == Failure(FutureRevision(batch.from, latestRevision)) && batches == old(batches) &&
          latestRevision == old(latestRevision)
      ensures r.Success? ==> latestRevision == batch.to
    {
      if batch.from != latestRevision { return Failure(FutureRevision(batch.from, latestRevision)); }
      ghost var first := |history| - Kept(capacity, |history|);
      ChainPrefix(history, batch);
      StoresNext(batches, history, first, batch);
      hide Chain, Stores;
      latestRevision := batch.to;
      batches := batches[batch.from := batch];
      history := history + [batch];
      if capacity.Some? { Evict(first); }
      return Success(());
    }

    /** The loop that drops the oldest batch while there are too many. */
    method Evict(ghost from: nat)
      requires capacity.Some? && capacity.value != 0 && Chain(history)
      requires from <= |history| && from <= |history| - Kept(capacity, |history|) && Stores(batches, history, from)
      modifies this`batches
      ensures Stores(batches, history, |history| - Kept(capacity, |history|))
    {
      hide Chain, Stores;
      ghost var first: nat := from;
      StoresCounts(batches, history, first);
      while |batches| > capacity.value
        invariant first <= |history| - Kept(capacity, |history|)
        invariant Stores(batches, history, first) && |batches| == |history| - first
        decreases |batches|
      {
        StoresWithoutOldest(batches, history, first);
        var oldest := FirstKey(batches);
        batches := batches - {oldest};
        first := first + 1;
      }
    }

    /** How many batches are held: the last `min(capacity, n)` of the `n` recorded ones. */
    lemma HoldsTheLast()
      requires Valid()
      ensures |batches| ==
        if capacity.Some? && capacity.value < |history| then capacity.value else |history|
      ensures forall i :: |history| - |batches| <= i < |history| ==>
        history[i].from in batches && batches[history[i].from] == history[i]
    {
      StoresCounts(batches, history, |history| - Kept(capacity, |history|));
    }

    /**
     * `deltas_since`: the exact suffix of the whole history, or a refusal when some of that suffix has been
     * evicted or lies in the future.
     */
    method DeltasSince(since: nat) returns (r: Result<seq<Batch<Op>>>)
      requires Valid()
      ensures
        var first := |history| - Kept(capacity, |history|);
        r == if latestRevision < since then Failure(FutureRevision(since, latestRevision))
             else if since < Reached(history, first) then Failure(Compacted(since))
             else Success(StartingAt(history, since))
    {
      hide Chain, Stores, StartingAt;
      if since > latestRevision { return Failure(FutureRevision(since, latestRevision)); }
      OldestIsReached();
      if batches != map[] {
        var oldest := FirstKey(batches);
        if since < oldest { return Failure(Compacted(since)); }
      }
      var found := Range(since);
      return Success(found);
    }

    /** The least stored revision is where the retained part begins; with nothing retained that is zero. */
    lemma OldestIsReached()
      requires Valid()
      ensures
        var start := Reached(history, |history| - Kept(capacity, |history|));
        if batches == map[] then start == 0
        else start in batches && forall r :: r in batches ==> start <= r
    {
      var first := |history| - Kept(capacity, |history|);
      if batches != map[] {
        StoresNonEmpty(batches, history, first);
        StoresWithoutOldest(batches, history, first);
        assert history[first].from == Reached(history, first);
      } else {
        StoresCounts(batches, history, first);
      }
    }

    /** The ordered range of the map from `since` on. */
    method Range(since: nat) returns (found: seq<Batch<Op>>)
      requires Valid() && Reached(history, |history| - Kept(capacity, |history|)) <= since
      ensures found == StartingAt(history, since)
    {
      ghost var i := FirstStarting(history, since);
      StartingAtIsSuffix(history, since, i);
      StoresRange(batches, history, |history| - Kept(capacity, |history|), since, i);
      hide Chain, Stores, StartingAt;
      found := InOrder(map b | b in batches && since <= b :: batches[b], i);
    }

    /** The values of an ordered map in key order. */
    method InOrder(stored: map<nat, Batch<Op>>, ghost first: nat) returns (found: seq<Batch<Op>>)
      requires Chain(history) && first <= |history| && Stores(stored, history, first)
      ensures found == history[first..]
    {
      hide Chain, Stores;
      found := [];
      var left := stored;
      ghost var i: nat := first;
      while left != map[]
        invariant first <= i <= |history| && Stores(left, history, i) && found == history[first..i]
        decreases |left|
      {
        StoresCounts(left, history, i);
        StoresWithoutOldest(left, history, i);
        StoresOldest(left, history, i);
        var next := FirstKey(left);
        assert next == history[i].from;
        found := found + [left[next]];
        left := left - {next};
        i := i + 1;
      }
      StoresCounts(left, history, i);
    }
  }

  lemma StoresOldest<Op(!new)>(stored: map<nat, Batch<Op>>, history: seq<Batch<Op>>, first: nat)
    requires first < |history| && Stores(stored, history, first)
    ensures history[first].from in stored && stored[history[first].from] == history[first]
  {
  }

  /** The position of the first batch that starts at or after `since`. */
  lemma FirstStarting<Op>(history: seq<Batch<Op>>, since: nat) returns (i: nat)
    requires Chain(history)
    ensures i <= |history| && forall j :: 0 <= j < |history| ==> (since <= history[j].from <==> i <= j)
  {
    i := 0;
    while i < |history| && history[i].from < since
      invariant i <= |history| && forall j :: 0 <= j < i ==> history[j].from < since
    {
      i := i + 1;
    }
    forall j | i <= j < |history|
      ensures since <= history[j].from
    {
      assert Reached(history, j) == history[j].from && Reached(history, i) == history[i].from;
      if i < j { ReachedGrows(history, i, j); }
    }
  }

  /** The stored batches from `since` on are a later run of the same history, if nothing was evicted behind it. */
  lemma StoresRange<Op(!new)>(stored: map<nat, Batch<Op>>, history: seq<Batch<Op>>, first: nat, since: nat, i: nat)
    requires Chain(history) && first <= |history| && Stores(stored, history, first) && Reached(history, first) <= since
    requires i <= |history| && forall j :: 0 <= j < |history| ==> (since <= history[j].from <==> i <= j)
    ensures Stores(map b | b in stored && since <= b :: stored[b], history, i)
  {
    forall j {:trigger history[j]} | i <= j < |history|
      ensures first <= j
    {
      assert Reached(history, j) == history[j].from;
      if j < first { ReachedGrows(history, j, first); }
    }
    var late := map b | b in stored && since <= b :: stored[b];
    forall r | r in late
      ensures exists j :: i <= j < |history| && history[j].from == r
    {
      var j :| first <= j < |history| && history[j].from == r;
      assert i <= j;
    }
  }
}
