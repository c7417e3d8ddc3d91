/**
 * src/sync.rs and src/transaction.rs: commits go through the coordinator's journal, and any number of
 * cursors follow it by replay, or by a rebuild where replay is refused.
 */
module Synchronizing {
  import opened Common
  import opened Journals

  const U64_MAX: nat := 0xffff_ffff_ffff_ffff

  datatype AdapterHealth = Ready | RequiresRebuild | Terminal

  class AdapterCursor {
    var appliedRevision: nat
    var health: AdapterHealth

    constructor ()
      ensures appliedRevision == 0 && health == Ready
    {
      appliedRevision, health := 0, Ready;
    }

    /** `advance`: only the batch that starts where the cursor stands is accepted. */
    method Advance<Op>(batch: Batch<Op>) returns (ok: bool)
      modifies this
      ensures ok <==> batch.from == old(appliedRevision)
      ensures appliedRevision == if ok then batch.to else old(appliedRevision)
      ensures health == if ok then Ready else old(health)
    {
      if batch.from != appliedRevision { return false; }
      appliedRevision, health := batch.to, Ready;
      return true;
    }

    method MarkRebuild()
      modifies this`health
      ensures health == RequiresRebuild
    {
      health := RequiresRebuild;
    }

    method MarkReady(revision: nat)
      modifies this
      ensures appliedRevision == revision && health == Ready
    {
      appliedRevision, health := revision, Ready;
    }
  }

  class SyncCoordinator<Op(!new)> {
    const journal: Journal<Op>
    var currentRevision: nat

    ghost predicate Valid()
      reads this, journal
    {
      journal.Valid() && currentRevision == journal.latestRevision
    }

    constructor (capacity: Option<nat>)
      requires capacity != Some(0)
      ensures Valid() && journal.history == [] && fresh(journal)
    {
      journal := new Journal<Op>(capacity);
      currentRevision := 0;
    }

    method CommitBatch(batch: Batch<Op>) returns (r: Result<()>)
      requires Valid() && batch.from < batch.to
      modifies this, journal
      ensures Valid()
      ensures r.Success? <==> batch.from == old(currentRevision)
      ensures journal.history == if r.Success? then old(journal.history) + [batch] else old(journal.history)
      ensures r.Failure? ==> r == Failure(FutureRevision(batch.from, currentRevision))
      ensures r.Failure? ==> currentRevision == old(currentRevision) && journal.batches == old(journal.batches)
    {
      r := journal.Record(batch);
      if r.Failure? { return; }
      currentRevision := journal.latestRevision;
    }

    method BatchesForCursor(cursor: AdapterCursor) returns (r: Result<seq<Batch<Op>>>)
      requires Valid()
      ensures
        var first := |journal.history| - Kept(journal.capacity, |journal.history|);
        var since := cursor.appliedRevision;
        r == if currentRevision < since then Failure(FutureRevision(since, currentRevision))
             else if since < Reached(journal.history, first) then Failure(Compacted(since))
             else Success(StartingAt(journal.history, since))
    {
      r := journal.DeltasSince(cursor.appliedRevision);
    }
  }

  datatype TransactionError = EmptyTransaction | RevisionOverflow | Rejected(error: RevisionError)
  datatype Committed<Op> = CommitOk(batch: Batch<Op>) | CommitErr(error: TransactionError)

  class StagingTransaction<Op(!new)> {
    const fromRevision: nat
    var ops: seq<Op>

    constructor (from: nat)
      ensures fromRevision == from && ops == []
    {
      fromRevision, ops := from, [];
    }

    method Stage(op: Op)
      modifies this
      ensures ops == old(ops) + [op]
    {
      ops := ops + [op];
    }

    /** `commit`: all staged operations become one batch to the next revision, or nothing happens. */
    method Commit(coordinator: SyncCoordinator<Op>) returns (r: Committed<Op>)
      requires coordinator.Valid() && fromRevision <= U64_MAX
      modifies coordinator, coordinator.journal
      ensures coordinator.Valid()
      ensures r == if ops == [] then CommitErr(EmptyTransaction)
        else if fromRevision == U64_MAX then CommitErr(RevisionOverflow)
        else if fromRevision != old(coordinator.currentRevision)
          then CommitErr(Rejected(FutureRevision(fromRevision, old(coordinator.currentRevision))))
        else CommitOk(Batch(fromRevision, fromRevision + 1, ops))
      ensures coordinator.journal.history
        == old(coordinator.journal.history) + if r.CommitOk? then [r.batch] else []
      ensures r.CommitErr? ==> coordinator.currentRevision == old(coordinator.currentRevision)
    {
      if |ops| == 0 { return CommitErr(EmptyTransaction); }
      if fromRevision == U64_MAX { return CommitErr(RevisionOverflow); }
      var batch := Batch(fromRevision, fromRevision + 1, ops);
      var recorded := coordinator.CommitBatch(batch);
      if recorded.Failure? { return CommitErr(Rejected(recorded.error)); }
      return CommitOk(batch);
    }
  }

  // ---------------------------------------------------------------- the state a history stands for

  function Applied<S, Op>(s: S, ops: seq<Op>, apply: (S, Op) -> S): S {
    if |ops| == 0 then s else apply(Applied(s, ops[..|ops| - 1], apply), ops[|ops| - 1])
  }

  /** One op is one application, and a list applied after another is the two lists applied as one. */
  lemma {:induction false} AppliedComposes<S, Op>(s: S, first: seq<Op>, second: seq<Op>, apply: (S, Op) -> S)
    ensures |first| == 1 ==> Applied(s, first, apply) == apply(s, first[0])
    ensures Applied(s, first + second, apply) == Applied(Applied(s, first, apply), second, apply)
  {
    if |first| == 1 { assert Applied(s, first[..0], apply) == s; }
    if |second| == 0 {
      assert first + second == first;
    } else {
      var k := |second| - 1;
      assert (first + second)[..|first + second| - 1] == first + second[..k];
      AppliedComposes(s, first, second[..k], apply);
    }
  }

  /** All operations of a history, in order. */
  function Operations<Op>(batches: seq<Batch<Op>>): seq<Op> {
    if |batches| == 0 then [] else Operations(batches[..|batches| - 1]) + batches[|batches| - 1].operations
  }

  /** However a history is cut into batches, its state is that of its operations one after another. */
  lemma {:induction false} ReplayedIsApplied<S, Op>(s: S, batches: seq<Batch<Op>>, apply: (S, Op) -> S)
    ensures Replayed(s, batches, apply) == Applied(s, Operations(batches), apply)
  {
    if |batches| != 0 {
      var k := |batches| - 1;
      ReplayedIsApplied(s, batches[..k], apply);
      AppliedComposes(s, Operations(batches[..k]), batches[k].operations, apply);
    }
  }

  function Replayed<S, Op>(s: S, batches: seq<Batch<Op>>, apply: (S, Op) -> S): S {
    if |batches| == 0 then s
    else Applied(Replayed(s, batches[..|batches| - 1], apply), batches[|batches| - 1].operations, apply)
  }

  lemma ReplayedNext<S, Op>(s: S, batches: seq<Batch<Op>>, i: nat, apply: (S, Op) -> S)
    requires i < |batches|
    ensures Replayed(s, batches[..i + 1], apply) ==
        Applied(Replayed(s, batches[..i], apply), batches[i].operations, apply)
  {
    assert batches[..i + 1][..i] == batches[..i];
  }

  /** An adapter session: a cursor and the replica it has built. */
  class Adapter<S(!new), Op(!new)> {
    const cursor: AdapterCursor
    const initial: S
    const apply: (S, Op) -> S
    var replica: S

    /** While ready, the replica is the model state at the cursor's revision. */
    ghost predicate Follows(history: seq<Batch<Op>>)
      reads this, cursor
    {
      cursor.health.Ready? ==>
        exists i :: 0 <= i <= |history| && IsAt(history, i)
    }

    ghost predicate IsAt(history: seq<Batch<Op>>, i: nat)
      requires i <= |history|
      reads this, cursor
    {
      cursor.appliedRevision == Reached(history, i) && replica == Replayed(initial, history[..i], apply)
    }

    constructor (initial: S, apply: (S, Op) -> S)
      ensures cursor.health == Ready && cursor.appliedRevision == 0 && replica == initial && fresh(cursor)
      ensures this.initial == initial && this.apply == apply
    {
      cursor := new AdapterCursor();
      this.initial, this.apply, replica := initial, apply, initial;
    }

    /** Applies one batch op by op; it may fail part-way, which leaves an unusable replica. */
    method ApplyBatch(batch: Batch<Op>) returns (ok: bool)
      modifies this
      ensures ok ==> replica == Applied(old(replica), batch.operations, apply)
    {
      var k := 0;
      ghost var before := replica;
      while k < |batch.operations|
        invariant 0 <= k <= |batch.operations|
        invariant replica == Applied(before, batch.operations[..k], apply)
      {
        assert batch.operations[..k + 1][..k] == batch.operations[..k];
        var works := *;
        if !works { return false; }
        replica := apply(replica, batch.operations[k]);
        k := k + 1;
      }
      assert batch.operations[..k] == batch.operations;
      return true;
    }

    /** Replays a suffix batch by batch, advancing the cursor behind each one. */
    method Replay(batches: seq<Batch<Op>>, ghost history: seq<Batch<Op>>, ghost start: nat)
      requires cursor.health.Ready? && start <= |history| && IsAt(history, start)
      requires Chain(history) && batches == history[start..]
      requires this as object != cursor
      modifies this, cursor
      ensures cursor.health.Ready? ==> IsAt(history, |history|)
    {
      hide Chain;
      var k := 0;
      while k < |batches|
        invariant 0 <= k <= |batches| && start + k <= |history|
        invariant cursor.health.Ready? && IsAt(history, start + k)
      {
        ghost var i := start + k;
        assert batches[k] == history[i];
        StartsWhereReached(history, i);
        ReplayedNext(initial, history, i, apply);
        var ok := ApplyBatch(batches[k]);
        if !ok { cursor.MarkRebuild(); return; }
        var advanced := cursor.Advance(batches[k]);
        assert advanced;
        k := k + 1;
      }
    }

    /**
     * One synchronization: replay from the cursor, or a rebuild from a snapshot of the current state when the
     * cursor is not ready or its batches were evicted. A completed one is at the current state.
     */
    method Synchronize(coordinator: SyncCoordinator<Op>, snapshot: S) returns (done: bool)
      requires coordinator.Valid() && Follows(coordinator.journal.history)
      requires snapshot == Replayed(initial, coordinator.journal.history, apply)
      requires this as object != cursor
      requires {this, cursor as object} !! {coordinator, coordinator.journal as object}
      modifies this, cursor
      ensures Follows(coordinator.journal.history)
      ensures done <==> cursor.health.Ready?
      ensures done ==>
        cursor.appliedRevision == coordinator.currentRevision &&
          replica == Replayed(initial, coordinator.journal.history, apply)
    {
      ghost var history := coordinator.journal.history;
      assert history[..|history|] == history;
      if cursor.health.Ready? {
        ghost var i :| 0 <= i <= |history| && IsAt(history, i);
        BoundarySuffix(history, i);
        var r := coordinator.BatchesForCursor(cursor);
        if r.Success? {
          Replay(r.value, history, i);
          return cursor.health.Ready?;
        }
        cursor.MarkRebuild();
      }
      if cursor.health.Terminal? { return false; }
      done := *;
      if done {
        replica := snapshot;
        cursor.MarkReady(coordinator.currentRevision);
        assert IsAt(history, |history|);
      }
    }
  }

  lemma StartsWhereReached<Op>(history: seq<Batch<Op>>, i: nat)
    requires Chain(history) && i < |history|
    ensures history[i].from == Reached(history, i)
    ensures Reached(history, i + 1) == history[i].to
  {
  }

  // ---------------------------------------------------------------- any number of adapters

  datatype Step<Op> = CommitStep(from: nat, operations: seq<Op>) | SyncStep(adapter: nat) | BreakStep(adapter: nat)

  ghost predicate Separated<S(!new), Op(!new)>(coordinator: SyncCoordinator<Op>, adapters: seq<Adapter<S, Op>>) {
    && (forall i, j :: 0 <= i < j < |adapters| ==>
        adapters[i] != adapters[j] && adapters[i].cursor != adapters[j].cursor)
    && (forall i, j :: 0 <= i < |adapters| && 0 <= j < |adapters| ==> adapters[i] as object != adapters[j].cursor)
    && (forall i :: 0 <= i < |adapters| ==>
          {adapters[i], adapters[i].cursor as object} !! {coordinator, coordinator.journal as object})
  }

  ghost function Objects<S(!new), Op(!new)>(adapters: seq<Adapter<S, Op>>): set<object> {
    (set i | 0 <= i < |adapters| :: adapters[i] as object) +
      (set i | 0 <= i < |adapters| :: adapters[i].cursor as object)
  }

  lemma FollowsGrows<S(!new), Op(!new)>(a: Adapter<S, Op>, history: seq<Batch<Op>>, more: seq<Batch<Op>>)
    requires a.Follows(history)
    ensures a.Follows(history + more)
  {
    if a.cursor.health.Ready? {
      var i :| 0 <= i <= |history| && a.IsAt(history, i);
      assert (history + more)[..i] == history[..i];
      assert a.IsAt(history + more, i);
    }
  }

  lemma ReplayedMore<S, Op>(s: S, batches: seq<Batch<Op>>, last: Batch<Op>, apply: (S, Op) -> S)
    ensures Replayed(s, batches + [last], apply) == Applied(Replayed(s, batches, apply), last.operations, apply)
  {
    assert (batches + [last])[..|batches|] == batches;
  }

  /**
   * Convergence: in any interleaving of commits (stale ones too), evictions, synchronizations that may fail
   * part-way, and adapter failures, every ready adapter's replica is the model state at its revision.
   */
  method Interleave<S(!new), Op(!new)>(
      coordinator: SyncCoordinator<Op>, adapters: seq<Adapter<S, Op>>, steps: seq<Step<Op>>, initial: S,
      apply: (S, Op) -> S)
    returns (model: S)
    requires coordinator.Valid() && Separated(coordinator, adapters) && coordinator.journal.history == []
    requires forall i :: 0 <= i < |steps| && steps[i].CommitStep? ==> steps[i].from <= U64_MAX
    requires forall i :: 0 <= i < |adapters| ==>
      adapters[i].initial == initial && adapters[i].apply == apply && adapters[i].Follows([])
    modifies coordinator, coordinator.journal, Objects(adapters)
    ensures coordinator.Valid() && model == Replayed(initial, coordinator.journal.history, apply)
    ensures forall i :: 0 <= i < |adapters| ==> adapters[i].Follows(coordinator.journal.history)
  {
    model := initial;
    var k := 0;
    while k < |steps|
      invariant 0 <= k <= |steps| && coordinator.Valid()
      invariant model == Replayed(initial, coordinator.journal.history, apply)
      invariant forall i :: 0 <= i < |adapters| ==> adapters[i].Follows(coordinator.journal.history)
    {
      match steps[k] {
        case CommitStep(from, operations) =>
            model := CommitOn(coordinator, adapters, from, operations, model, initial, apply);
        case SyncStep(n) => if n < |adapters| { SyncOn(coordinator, adapters, n, model, initial, apply); }
        case BreakStep(n) => if n < |adapters| { BreakOn(coordinator, adapters, n); }
      }
      k := k + 1;
    }
  }

  /** A new transaction with all operations staged. */
  method Staged<Op(!new)>(from: nat, operations: seq<Op>) returns (transaction: StagingTransaction<Op>)
    requires from <= U64_MAX
    ensures fresh(transaction) && transaction.fromRevision == from && transaction.ops == operations
  {
    transaction := new StagingTransaction<Op>(from);
    var k := 0;
    while k < |operations|
      invariant 0 <= k <= |operations| && transaction.ops == operations[..k] && transaction.fromRevision == from
      modifies transaction
    {
      transaction.Stage(operations[k]);
      k := k + 1;
    }
    assert operations[..k] == operations;
  }

  method CommitOn<S(!new), Op(!new)>(
      coordinator: SyncCoordinator<Op>, adapters: seq<Adapter<S, Op>>, from: nat, operations: seq<Op>, was: S,
      initial: S, apply: (S, Op) -> S)
    returns (model: S)
    requires coordinator.Valid() && Separated(coordinator, adapters) && from <= U64_MAX
    requires was == Replayed(initial, coordinator.journal.history, apply)
    requires forall i :: 0 <= i < |adapters| ==> adapters[i].Follows(coordinator.journal.history)
    modifies coordinator, coordinator.journal
    ensures coordinator.Valid() && model == Replayed(initial, coordinator.journal.history, apply)
    ensures forall i :: 0 <= i < |adapters| ==> adapters[i].Follows(coordinator.journal.history)
  {
    model := was;
    ghost var history := coordinator.journal.history;
    var transaction := Staged(from, operations);
    var r := transaction.Commit(coordinator);
    ghost var more := if r.CommitOk? then [r.batch] else [];
    forall i | 0 <= i < |adapters|
      ensures adapters[i].Follows(history + more)
    {
      assert adapters[i].Follows(history);
      FollowsGrows(adapters[i], history, more);
    }
    if r.CommitOk? {
      ReplayedMore(initial, history, r.batch, apply);
      model := ApplyAllOps(was, r.batch.operations, apply);
    } else {
      assert history + more == history;
    }
  }

  /** The model's own state moves with each committed batch. */
  method ApplyAllOps<S, Op>(s: S, ops: seq<Op>, apply: (S, Op) -> S) returns (r: S)
    ensures r == Applied(s, ops, apply)
  {
    r := s;
    var k := 0;
    while k < |ops|
      invariant 0 <= k <= |ops| && r == Applied(s, ops[..k], apply)
    {
      assert ops[..k + 1][..k] == ops[..k];
      r := apply(r, ops[k]);
      k := k + 1;
    }
    assert ops[..k] == ops;
  }

  method SyncOn<S(!new), Op(!new)>(
      coordinator: SyncCoordinator<Op>, adapters: seq<Adapter<S, Op>>, n: nat, model: S, ghost initial: S,
      ghost apply: (S, Op) -> S)
    requires coordinator.Valid() && Separated(coordinator, adapters) && n < |adapters|
    requires model == Replayed(initial, coordinator.journal.history, apply)
    requires adapters[n].initial == initial && adapters[n].apply == apply
    requires forall i :: 0 <= i < |adapters| ==> adapters[i].Follows(coordinator.journal.history)
    modifies adapters[n], adapters[n].cursor
    ensures forall i :: 0 <= i < |adapters| ==> adapters[i].Follows(coordinator.journal.history)
  {
    var _ := adapters[n].Synchronize(coordinator, model);
  }

  method BreakOn<S(!new), Op(!new)>(coordinator: SyncCoordinator<Op>, adapters: seq<Adapter<S, Op>>, n: nat)
    requires Separated(coordinator, adapters) && n < |adapters|
    requires forall i :: 0 <= i < |adapters| ==> adapters[i].Follows(coordinator.journal.history)
    modifies adapters[n].cursor
    ensures forall i :: 0 <= i < |adapters| ==> adapters[i].Follows(coordinator.journal.history)
  {
    adapters[n].cursor.MarkRebuild();
  }
}
