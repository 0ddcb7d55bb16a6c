/**
  The Postgres claim of app/services/scheduling.py taken apart: a claimer locks the first queued
  immediate row that nobody has locked, and later marks it and commits, or rolls back.  A locked
  row is not written by anyone else meanwhile, so the claim needs no guard; but a claim can pass
  over the head of the queue, exactly when another claimer holds it.
 */
module SkipLocked {
  import opened Wrappers
  import opened JobQueue
  import QueueRefinement

  /** locks: the row each claimer holds; claimed: ids handed out, oldest first. */
  datatype Race = Race(jobs: Table, locks: map<int, int>, claimed: seq<int>)

  datatype Move =
    | Lock(c: int)
    | Commit(c: int)
    | Rollback(c: int)                     // the claimer's transaction ends without a commit
    | Elsewhere(edit: Edit)                // a queue edit, while it need not wait for a lock
    | Leave(id: int, status: JobStatus)    // any other commit: a job leaves or stays out of the queue

  /** FOR UPDATE SKIP LOCKED, first row: None when every row is locked. */
  function FirstUnlocked(q: seq<int>, locks: map<int, int>): Option<int> {
    if q == [] then None
    else if q[0] in locks.Values then FirstUnlocked(q[1..], locks)
    else Some(q[0])
  }

  function Selected(r: Race): Option<int> {
    FirstUnlocked(Queue(r.jobs, Immediate), r.locks)
  }

  /** The edit writes no locked row. */
  predicate NeedNotWait(r: Race, e: Edit)
    requires Names(r.jobs, e)
  {
    var t := ApplyEdit(r.jobs, e);
    forall id :: id in r.locks.Values && 0 <= id < |r.jobs| && 0 <= id < |t| ==> t[id] == r.jobs[id]
  }

  predicate CanMove(r: Race, m: Move) {
    match m
    case Lock(c) => c !in r.locks && Selected(r).Some?
    case Commit(c) => c in r.locks && 0 <= r.locks[c] < |r.jobs|
    case Rollback(c) => c in r.locks
    case Elsewhere(e) => Names(r.jobs, e) && NeedNotWait(r, e)
    case Leave(id, status) => 0 <= id < |r.jobs| && status != Queued && id !in r.locks.Values
  }

  function Moved(r: Race, m: Move): Race
    requires CanMove(r, m)
  {
    match m
    case Lock(c) => r.(locks := r.locks[c := Selected(r).value])
    case Commit(c) => Race(SetStatus(r.jobs, r.locks[c], Claimed), r.locks - {c}, r.claimed + [r.locks[c]])
    case Rollback(c) => r.(locks := r.locks - {c})
    case Elsewhere(e) => r.(jobs := ApplyEdit(r.jobs, e))
    case Leave(id, status) => r.(jobs := SetStatus(r.jobs, id, status))
  }

  predicate Playable(r: Race, moves: seq<Move>)
    decreases |moves|
  {
    moves == [] || (CanMove(r, moves[0]) && Playable(Moved(r, moves[0]), moves[1..]))
  }

  function Play(r: Race, moves: seq<Move>): Race
    requires Playable(r, moves)
    decreases |moves|
  {
    if moves == [] then r else Play(Moved(r, moves[0]), moves[1..])
  }

  // ---------------------------------------------------------------- what a claim locks

  lemma {:induction false} FirstUnlockedSpec(q: seq<int>, locks: map<int, int>)
    ensures FirstUnlocked(q, locks).None? <==> forall k :: 0 <= k < |q| ==> q[k] in locks.Values
    ensures FirstUnlocked(q, locks).Some? ==>
              exists k :: 0 <= k < |q| && q[k] == FirstUnlocked(q, locks).value && q[k] !in locks.Values &&
                          forall j :: 0 <= j < k ==> q[j] in locks.Values
  {
    if q != [] && q[0] in locks.Values {
      FirstUnlockedSpec(q[1..], locks);
      assert forall k :: 0 < k < |q| ==> q[k] == q[1..][k - 1];
      if FirstUnlocked(q, locks).Some? {
        var k :| 0 <= k < |q[1..]| && q[1..][k] == FirstUnlocked(q, locks).value && q[1..][k] !in locks.Values &&
                 forall j :: 0 <= j < k ==> q[1..][j] in locks.Values;
        assert q[k + 1] == q[1..][k];
      }
    }
  }

  /**
    The row a claim locks is queued and immediate, nobody holds it, and what comes before it in
    the queue is held by other claimers.  There is none exactly when every queued immediate row
    is held.
   */
  lemma ClaimOvertakesOnlyLocked(r: Race)
    ensures Selected(r).None? <==> forall id :: IsQueued(r.jobs, Immediate, id) ==> id in r.locks.Values
    ensures Selected(r).Some? ==>
              var id := Selected(r).value;
              && IsQueued(r.jobs, Immediate, id) && id !in r.locks.Values
              && forall other :: IsQueued(r.jobs, Immediate, other) && Before(r.jobs, other, id) ==>
                   other in r.locks.Values
  {
    var q := Queue(r.jobs, Immediate);
    QueueSpec(r.jobs, Immediate);
    FirstUnlockedSpec(q, r.locks);
    assert forall id :: IsQueued(r.jobs, Immediate, id) <==> id in q;
    if Selected(r).Some? {
      var k :| 0 <= k < |q| && q[k] == Selected(r).value && q[k] !in r.locks.Values &&
               forall j :: 0 <= j < k ==> q[j] in r.locks.Values;
      forall other | IsQueued(r.jobs, Immediate, other) && Before(r.jobs, other, q[k]) ensures other in r.locks.Values {
        assert other in q;
        var j :| 0 <= j < |q| && q[j] == other;
        assert j < k;
      }
    }
  }

  /** A claim locks the minimum of the immediate queue if and only if no other claimer holds it. */
  lemma ClaimsTheHeadIff(r: Race)
    requires Queue(r.jobs, Immediate) != []
    ensures Selected(r) == Some(Queue(r.jobs, Immediate)[0]) <==> Queue(r.jobs, Immediate)[0] !in r.locks.Values
  {
    FirstUnlockedSpec(Queue(r.jobs, Immediate), r.locks);
  }

  // ---------------------------------------------------------------- exactly once

  /** Locks are on queued immediate rows, one claimer each; handed-out ids are distinct and not queued. */
  ghost predicate Inv(r: Race) {
    && (forall c :: c in r.locks ==> IsQueued(r.jobs, Immediate, r.locks[c]))
    && (forall c, d :: c in r.locks && d in r.locks && c != d ==> r.locks[c] != r.locks[d])
    && Distinct(r.claimed)
    && (forall k :: 0 <= k < |r.claimed| ==>
          0 <= r.claimed[k] < |r.jobs| && r.jobs[r.claimed[k]].status != Queued)
  }

  lemma MoveKeepsInv(r: Race, m: Move)
    requires Inv(r) && CanMove(r, m)
    ensures Inv(Moved(r, m)) && r.claimed <= Moved(r, m).claimed
  {
    match m
    case Lock(c) => ClaimOvertakesOnlyLocked(r);
    case Elsewhere(e) => QueueRefinement.EditKeepsStatuses(r.jobs, e);
    case Commit(c) =>
    case _ =>
  }

  /** Whatever the interleaving, no id is handed out twice, and each one is taken from the immediate queue. */
  lemma {:induction false} NoJobIsClaimedTwice(r: Race, moves: seq<Move>)
    requires Inv(r) && Playable(r, moves)
    ensures Inv(Play(r, moves)) && r.claimed <= Play(r, moves).claimed
    decreases |moves|
  {
    if moves != [] {
      MoveKeepsInv(r, moves[0]);
      NoJobIsClaimedTwice(Moved(r, moves[0]), moves[1..]);
    }
  }

  /** A commit takes exactly its row out of the immediate queue, whatever happened since the lock. */
  lemma CommitTakesItsRow(r: Race, c: int)
    requires Inv(r) && CanMove(r, Commit(c))
    ensures IsQueued(r.jobs, Immediate, r.locks[c])
    ensures Abs(Moved(r, Commit(c)).jobs)
            == Queues(Without(Queue(r.jobs, Immediate), r.locks[c]), Queue(r.jobs, Nightly))
  {
    QueueSpec(r.jobs, Nightly);
    QueueRefinement.StatusChangeRemoves(r.jobs, r.locks[c], Claimed);
  }

  /** The lock holds: nothing but the claimer itself ends it. */
  lemma LockStays(r: Race, m: Move, c: int)
    requires Inv(r) && CanMove(r, m) && c in r.locks && m != Commit(c) && m != Rollback(c)
    ensures c in Moved(r, m).locks && Moved(r, m).locks[c] == r.locks[c]
    ensures r.locks[c] < |Moved(r, m).jobs| && Moved(r, m).jobs[r.locks[c]] == r.jobs[r.locks[c]]
  {
    if m.Elsewhere? { QueueRefinement.EditKeepsStatuses(r.jobs, m.edit); }
  }

  /** One claimer alone, as under the single pump: lock and commit claim the minimum. */
  lemma AloneClaimsTheHead(r: Race, c: int)
    requires r.locks == map[] && Queue(r.jobs, Immediate) != []
    ensures CanMove(r, Lock(c)) && CanMove(Moved(r, Lock(c)), Commit(c))
    ensures var t := Moved(Moved(r, Lock(c)), Commit(c));
            && t.claimed == r.claimed + [Queue(r.jobs, Immediate)[0]]
            && t.jobs == SetStatus(r.jobs, Queue(r.jobs, Immediate)[0], Claimed)
  {
    ClaimsTheHeadIff(r);
    QueueListsRows(r.jobs, Immediate);
  }

  /** Two claimers: the second passes over the head, and claims out of order when the first rolls back. */
  lemma SecondClaimOvertakes(r: Race)
    requires r.locks == map[] && |Queue(r.jobs, Immediate)| >= 2
    ensures var moves := [Lock(0), Lock(1), Commit(1), Rollback(0)];
            var q := Queue(r.jobs, Immediate);
            && Playable(r, moves) && Play(r, moves).claimed == r.claimed + [q[1]]
            && Before(r.jobs, q[0], q[1]) && IsQueued(Play(r, moves).jobs, Immediate, q[0])
  {
    var q := Queue(r.jobs, Immediate);
    QueueSpec(r.jobs, Immediate);
    QueueListsRows(r.jobs, Immediate);
    var r1 := Moved(r, Lock(0));
    assert Selected(r) == Some(q[0]);
    assert r1.locks[0] == q[0];
    assert q[1..][0] == q[1];
    assert 0 in r1.locks && q[0] in r1.locks.Values && q[1] !in r1.locks.Values;
    assert FirstUnlocked(q[1..], r1.locks) == Some(q[1]);
    assert Selected(r1) == Some(q[1]);
    var r2 := Moved(r1, Lock(1));
    var r3 := Moved(r2, Commit(1));
    var r4 := Moved(r3, Rollback(0));
    var moves := [Lock(0), Lock(1), Commit(1), Rollback(0)];
    assert moves[1..] == [Lock(1), Commit(1), Rollback(0)];
    assert moves[1..][1..] == [Commit(1), Rollback(0)];
    assert moves[1..][1..][1..] == [Rollback(0)];
    assert Playable(r4, []) && Play(r4, []) == r4;
  }
}
