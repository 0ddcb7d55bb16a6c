/**
  app/services/scheduling.py as it runs: a mutable table of job rows whose methods assign
  positions, types and statuses row by row.  Each method is proved against the table
  functions of JobQueue and, through the refinement, against the two abstract sequences.
  One method body is one database transaction.
 */
module JobTable {
  import opened Wrappers
  import opened JobQueue
  import QueueRefinement

  lemma {:induction false} DistinctCount(s: seq<int>)
    requires Distinct(s)
    ensures |set x | x in s| == |s|
  {
    if s != [] {
      var n := |s| - 1;
      DistinctCount(s[..n]);
      assert (set x | x in s) == (set x | x in s[..n]) + {s[n]};
      assert s[n] !in s[..n];
    }
  }

  /** The length comparison detects exactly an id that is unknown or not queued. */
  lemma AllFound(t: Table, ids: seq<int>)
    requires Distinct(ids)
    ensures var found := set x | x in ids && IsQueued(t, Immediate, x);
            |found| == |ids| <==> forall x :: x in ids ==> IsQueued(t, Immediate, x)
  {
    var found := set x | x in ids && IsQueued(t, Immediate, x);
    var all := set x | x in ids;
    DistinctCount(ids);
    assert |all - found| == |all| - |found|;
    if |found| == |ids| {
      assert all - found == {};
      assert forall x :: x in ids ==> x in all && x !in all - found;
    }
    if forall x :: x in ids ==> IsQueued(t, Immediate, x) {
      assert found == all;
    }
  }

  /** One turn of a numbering loop. */
  lemma RenumberStep(t: Table, ids: seq<int>, k: nat, base: int, ty: ScheduleType)
    requires AreRows(t, ids) && Distinct(ids) && k < |ids|
    ensures AreRows(t, ids[..k]) && AreRows(t, ids[..k + 1]) && Distinct(ids[..k + 1])
    ensures var r := Renumber(t, ids[..k], base, ty);
            && r[ids[k]] == t[ids[k]]
            && Renumber(t, ids[..k + 1], base, ty)
               == r[ids[k] := t[ids[k]].(position := base + k + 1, schedule := ty)]
  {
    assert ids[..k + 1][..k] == ids[..k];
    assert ids[k] !in ids[..k];
  }

  /** Skipping the write when the position is already right changes nothing. */
  lemma CompactStep(t: Table, k: nat)
    requires k < |Queue(t, Immediate)|
    ensures var jobs := Queue(t, Immediate);
            && AreRows(t, jobs[..k]) && Distinct(jobs[..k]) && 0 <= jobs[k] < |t|
            && AreRows(t, jobs[..k + 1]) && Distinct(jobs[..k + 1])
            && var r := Renumber(t, jobs[..k], 0, Immediate);
               Renumber(t, jobs[..k + 1], 0, Immediate)
               == (if r[jobs[k]].position != k + 1
                   then r[jobs[k] := r[jobs[k]].(position := k + 1)] else r)
  {
    QueueListsRows(t, Immediate);
    var jobs := Queue(t, Immediate);
    RenumberStep(t, jobs, k, 0, Immediate);
    var r := Renumber(t, jobs[..k], 0, Immediate);
    assert IsQueued(t, Immediate, jobs[k]);
    assert r[jobs[k]].(position := k + 1) == t[jobs[k]].(position := k + 1, schedule := Immediate);
  }

  class Scheduler {
    var rows: Table

    constructor ()
      ensures rows == []
    {
      rows := [];
    }

    method Enqueue(ty: ScheduleType) returns (id: int)
      modifies this
      ensures id == |old(rows)| && rows == EnqueueRow(old(rows), ty)
      ensures Abs(rows) == if ty == Immediate
                           then Abs(old(rows)).(immediate := Abs(old(rows)).immediate + [id])
                           else Abs(old(rows)).(nightly := Abs(old(rows)).nightly + [id])
    {
      QueueRefinement.EditSimulates(rows, Edit.Enqueue(ty));
      id := |rows|;
      rows := rows + [Job(Queued, ty, NextPosition(rows, ty))];
    }

    /** The numbering loop of _rewrite_positions. */
    method Number(ordered: seq<int>)
      requires AreRows(rows, ordered) && Distinct(ordered)
      requires forall k :: 0 <= k < |ordered| ==> IsQueued(rows, Immediate, ordered[k])
      modifies this
      ensures rows == Renumber(old(rows), ordered, 0, Immediate)
    {
      for k := 0 to |ordered|
        invariant rows == Renumber(old(rows), ordered[..k], 0, Immediate)
      {
        RenumberStep(old(rows), ordered, k, 0, Immediate);
        rows := rows[ordered[k] := rows[ordered[k]].(position := k + 1)];
      }
      assert ordered[..|ordered|] == ordered;
    }

    /** _rewrite_positions: three checks, then the numbering loop. */
    method RewritePositions(ids: seq<int>) returns (r: Result<(), Rejection>)
      modifies this
      ensures match JobQueue.RewritePositions(old(rows), ids)
              case Ok(t) => r.Ok? && rows == t
              case Err(e) => r == Err(e) && rows == old(rows)
    {
      QueueSpec(rows, Immediate);
      var ordered := Dedup(ids);
      if ordered == [] {
        return Err(NoIds);
      }
      var jobs := set x | x in ordered && IsQueued(rows, Immediate, x);
      AllFound(rows, ordered);
      if |jobs| != |ordered| {
        return Err(UnknownOrNotQueued);
      }
      if jobs != (set x | x in Queue(rows, Immediate)) {
        assert exists x :: x in Queue(rows, Immediate) && x !in ordered;
        return Err(QueueChanged);
      }
      forall x | x in Queue(rows, Immediate) ensures x in ordered {
        assert x in jobs;
      }
      assert forall k | 0 <= k < |ordered| :: ordered[k] in ordered;
      Number(ordered);
      return Ok(());
    }

    method Reorder(ids: seq<int>) returns (r: Result<(), Rejection>)
      modifies this
      ensures match AbsEdit(Abs(old(rows)), |old(rows)|, Edit.Reorder(ids))
              case Ok(q) => r.Ok? && Abs(rows) == q && Dense(rows)
              case Err(e) => r == Err(e) && rows == old(rows)
    {
      QueueRefinement.ReorderSimulates(rows, ids);
      r := RewritePositions(ids);
    }

    method MoveToTop(id: int) returns (r: Result<(), Rejection>)
      requires 0 <= id < |rows|
      modifies this
      ensures match AbsEdit(Abs(old(rows)), |old(rows)|, Edit.ToTop(id))
              case Ok(q) => r.Ok? && Abs(rows) == q && Dense(rows)
              case Err(e) => r == Err(e) && rows == old(rows)
    {
      QueueRefinement.MoveSimulates(rows, Edit.ToTop(id));
      if rows[id].status != Queued {
        return Err(NotQueued);
      }
      if rows[id].schedule != Immediate {
        return Err(NotImmediate);
      }
      r := RewritePositions([id] + Without(Queue(rows, Immediate), id));
    }

    method MoveToBottom(id: int) returns (r: Result<(), Rejection>)
      requires 0 <= id < |rows|
      modifies this
      ensures match AbsEdit(Abs(old(rows)), |old(rows)|, Edit.ToBottom(id))
              case Ok(q) => r.Ok? && Abs(rows) == q && Dense(rows)
              case Err(e) => r == Err(e) && rows == old(rows)
    {
      QueueRefinement.MoveSimulates(rows, Edit.ToBottom(id));
      if rows[id].status != Queued {
        return Err(NotQueued);
      }
      if rows[id].schedule != Immediate {
        return Err(NotImmediate);
      }
      r := RewritePositions(Without(Queue(rows, Immediate), id) + [id]);
    }

    method EnrollNightly(id: int) returns (r: Result<(), Rejection>)
      requires 0 <= id < |rows|
      modifies this
      ensures match AbsEdit(Abs(old(rows)), |old(rows)|, Edit.Enroll(id))
              case Ok(q) => r.Ok? && Abs(rows) == q
              case Err(e) => r == Err(e) && rows == old(rows)
    {
      QueueRefinement.SwitchSimulates(rows, Edit.Enroll(id));
      if rows[id].status != Queued {
        return Err(NotQueued);
      }
      if rows[id].schedule == Nightly {
        return Ok(());
      }
      var position := NextPosition(rows, Nightly);
      rows := rows[id := rows[id].(schedule := Nightly, position := position)];
      return Ok(());
    }

    method RemoveNightly(id: int) returns (r: Result<(), Rejection>)
      requires 0 <= id < |rows|
      modifies this
      ensures match AbsEdit(Abs(old(rows)), |old(rows)|, Edit.Unenroll(id))
              case Ok(q) => r.Ok? && Abs(rows) == q
              case Err(e) => r == Err(e) && rows == old(rows)
    {
      QueueRefinement.SwitchSimulates(rows, Edit.Unenroll(id));
      if rows[id].status != Queued {
        return Err(NotQueued);
      }
      if rows[id].schedule != Nightly {
        return Err(NotNightly);
      }
      var position := NextPosition(rows, Immediate);
      rows := rows[id := rows[id].(schedule := Immediate, position := position)];
      return Ok(());
    }

    method PromoteNightly() returns (promoted: seq<int>)
      modifies this
      ensures promoted == Abs(old(rows)).nightly
      ensures rows == JobQueue.PromoteNightly(old(rows))
      ensures Abs(rows) == Queues(Abs(old(rows)).immediate + promoted, [])
    {
      QueueRefinement.PromoteConcatenates(rows);
      QueueListsRows(rows, Nightly);
      promoted := Queue(rows, Nightly);
      if promoted == [] {
        return;
      }
      var base := BasePosition(rows, Immediate);
      for k := 0 to |promoted|
        invariant rows == Renumber(old(rows), promoted[..k], base, Immediate)
      {
        RenumberStep(old(rows), promoted, k, base, Immediate);
        rows := rows[promoted[k] := rows[promoted[k]].(schedule := Immediate, position := base + (k + 1))];
      }
      assert promoted[..|promoted|] == promoted;
    }

    method CompactPositions()
      modifies this
      ensures rows == JobQueue.CompactPositions(old(rows))
      ensures Abs(rows) == Abs(old(rows)) && Dense(rows)
    {
      QueueListsRows(rows, Immediate);
      var jobs := Queue(rows, Immediate);
      for k := 0 to |jobs|
        invariant rows == Renumber(old(rows), jobs[..k], 0, Immediate)
      {
        CompactStep(old(rows), k);
        if rows[jobs[k]].position != k + 1 {
          rows := rows[jobs[k] := rows[jobs[k]].(position := k + 1)];
        }
      }
      assert jobs[..|jobs|] == jobs;
      QueueRefinement.CompactStutters(old(rows));
    }

    /** Cancel a queued job of either type, then compact. */
    method Cancel(id: int) returns (r: Result<(), Rejection>)
      requires 0 <= id < |rows|
      modifies this
      ensures r.Ok? <==> id in Abs(old(rows)).immediate + Abs(old(rows)).nightly
      ensures r.Err? ==> r == Err(NotQueued) && rows == old(rows)
      ensures r.Ok? ==>
                && rows == JobQueue.CompactPositions(SetStatus(old(rows), id, Cancelled))
                && Abs(rows) == Queues(Without(Abs(old(rows)).immediate, id), Without(Abs(old(rows)).nightly, id))
    {
      QueueSpec(rows, Immediate);
      QueueSpec(rows, Nightly);
      if rows[id].status != Queued {
        return Err(NotQueued);
      }
      QueueRefinement.StatusChangeRemoves(rows, id, Cancelled);
      rows := rows[id := rows[id].(status := Cancelled)];
      CompactPositions();
      return Ok(());
    }

    /**
      One claim transaction of the SQLite path: the lowest (position, id) queued immediate job
      becomes claimed.  The guarded UPDATE always hits its one row, because select and update
      run under the write lock.
     */
    method ClaimNext() returns (claimed: Option<int>)
      modifies this
      ensures claimed.None? <==> Abs(old(rows)).immediate == []
      ensures claimed.None? ==> rows == old(rows)
      ensures claimed.Some? ==>
                && IsQueued(old(rows), Immediate, claimed.value)
                && (forall other :: IsQueued(old(rows), Immediate, other) && other != claimed.value ==>
                      Before(old(rows), claimed.value, other))
                && rows == SetStatus(old(rows), claimed.value, Claimed)
                && [claimed.value] + Abs(rows).immediate == Abs(old(rows)).immediate
                && Abs(rows).nightly == Abs(old(rows)).nightly
    {
      QueueSpec(rows, Immediate);
      QueueSpec(rows, Nightly);
      var queue := Queue(rows, Immediate);
      if queue == [] {
        return None;
      }
      var id := queue[0];
      assert id in queue;
      QueueRefinement.StatusChangeRemoves(rows, id, Claimed);
      assert queue == [id] + queue[1..] && id !in queue[1..];
      var updated := 0;
      if rows[id].status == Queued {
        rows := rows[id := rows[id].(status := Claimed)];
        updated := 1;
      }
      if updated != 1 {
        return None;
      }
      return Some(id);
    }
  }
}
