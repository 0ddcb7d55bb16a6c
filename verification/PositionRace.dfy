/**
  The queue edits of app/services/scheduling.py taken apart.  A request reads the table, assigns
  columns, and commits later; the session writes exactly the columns that differ from what it
  loaded.  So an edit is a plan of per-row writes computed at its read, for every edit alike.
  When positions stay unique all the same, when a late compaction is harmless, and what repairs.
 */
module PositionRace {
  import opened JobQueue
  import QueueRefinement

  /** A request between its read and its commit: the rows it loaded and the rows it wants. */
  datatype Pending = Pending(seen: Table, planned: Table)

  datatype Race = Race(jobs: Table, pending: map<int, Pending>)

  datatype Move =
    | Read(c: int, edit: Edit)
    | Commit(c: int)
    | Leave(id: int, status: JobStatus)   // any other commit: a job leaves or stays out of the queue

  /** The plan was made from an earlier table: rows are never deleted and edits keep statuses. */
  predicate Fits(jobs: Table, w: Pending) {
    && |w.seen| <= |jobs|
    && |w.seen| <= |w.planned| <= |w.seen| + 1
    && (|w.planned| > |w.seen| ==> w.planned[|w.seen|].status == Queued)
  }

  predicate CanMove(r: Race, m: Move) {
    match m
    case Read(c, e) => c !in r.pending && Names(r.jobs, e)
    case Commit(c) => c in r.pending && Fits(r.jobs, r.pending[c])
    case Leave(id, status) => 0 <= id < |r.jobs| && status != Queued
  }

  /** A row after the plan's write: only the columns that differ from the loaded row change. */
  function WrittenRow(job: Job, seen: Job, planned: Job): Job {
    job.(schedule := if planned.schedule != seen.schedule then planned.schedule else job.schedule,
         position := if planned.position != seen.position then planned.position else job.position)
  }

  function Written(jobs: Table, w: Pending): (t: Table)
    requires Fits(jobs, w)
    ensures |t| == |jobs| + |w.planned| - |w.seen|
    ensures forall i :: 0 <= i < |w.seen| ==> t[i] == WrittenRow(jobs[i], w.seen[i], w.planned[i])
    ensures forall i :: |w.seen| <= i < |jobs| ==> t[i] == jobs[i]
    ensures |w.planned| > |w.seen| ==> t[|jobs|] == w.planned[|w.seen|]
  {
    seq(|w.seen|, i requires 0 <= i < |w.seen| => WrittenRow(jobs[i], w.seen[i], w.planned[i]))
    + jobs[|w.seen|..] + w.planned[|w.seen|..]
  }

  function Moved(r: Race, m: Move): Race
    requires CanMove(r, m)
  {
    match m
    case Read(c, e) => r.(pending := r.pending[c := Pending(r.jobs, ApplyEdit(r.jobs, e))])
    case Commit(c) => Race(Written(r.jobs, r.pending[c]), r.pending - {c})
    case Leave(id, status) => r.(jobs := SetStatus(r.jobs, id, status))
  }

  // ---------------------------------------------------------------- one commit, exactly

  /** The plan writes row i, or adds it. */
  predicate Touches(jobs: Table, w: Pending, i: int)
    requires Fits(jobs, w)
  {
    (0 <= i < |w.seen| && w.planned[i] != w.seen[i]) || (i == |jobs| && |w.planned| > |w.seen|)
  }

  /** Two different queued rows of a type on one position. */
  predicate SharePosition(t: Table, i: int, j: int) {
    i != j && exists ty :: IsQueued(t, ty, i) && IsQueued(t, ty, j) && t[i].position == t[j].position
  }

  predicate HitsQueuedRow(jobs: Table, w: Pending, i: int)
    requires Fits(jobs, w)
  {
    Touches(jobs, w, i) && exists j :: 0 <= j < |Written(jobs, w)| && SharePosition(Written(jobs, w), i, j)
  }

  /** Some row the commit writes ends, queued, on the position of another queued row of its type. */
  ghost predicate Collides(jobs: Table, w: Pending)
    requires Fits(jobs, w)
  {
    exists i :: HitsQueuedRow(jobs, w, i)
  }

  /** What the plan writes is at least 1. */
  ghost predicate PlanOk(w: Pending) {
    && |w.seen| <= |w.planned|
    && (forall i :: 0 <= i < |w.seen| ==> w.planned[i].status == w.seen[i].status)
    && (forall i :: 0 <= i < |w.seen| && w.planned[i].position != w.seen[i].position ==> w.planned[i].position >= 1)
    && (forall i :: |w.seen| <= i < |w.planned| ==> w.planned[i].position >= 1)
  }

  lemma UntouchedRow(jobs: Table, w: Pending, i: int)
    requires Fits(jobs, w) && PlanOk(w) && 0 <= i < |Written(jobs, w)| && !Touches(jobs, w, i)
    ensures i < |jobs| && Written(jobs, w)[i] == jobs[i]
  {
  }

  lemma WrittenIsPositive(jobs: Table, w: Pending, ty: ScheduleType, i: int)
    requires Fits(jobs, w) && PlanOk(w) && PositionsOk(jobs) && IsQueued(Written(jobs, w), ty, i)
    ensures Written(jobs, w)[i].position >= 1
  {
    if i < |jobs| { assert IsQueued(jobs, jobs[i].schedule, i); }
  }

  lemma CollisionBreaks(jobs: Table, w: Pending)
    requires Fits(jobs, w) && Collides(jobs, w)
    ensures !PositionsOk(Written(jobs, w))
  {
    var t := Written(jobs, w);
    var i :| HitsQueuedRow(jobs, w, i);
    var j :| 0 <= j < |t| && SharePosition(t, i, j);
    var ty :| IsQueued(t, ty, i) && IsQueued(t, ty, j) && t[i].position == t[j].position;
  }

  lemma NoCollisionKeeps(jobs: Table, w: Pending)
    requires Fits(jobs, w) && PlanOk(w) && PositionsOk(jobs) && !Collides(jobs, w)
    ensures PositionsOk(Written(jobs, w))
  {
    var t := Written(jobs, w);
    forall ty, i | IsQueued(t, ty, i) ensures t[i].position >= 1 { WrittenIsPositive(jobs, w, ty, i); }
    forall ty, i, j | IsQueued(t, ty, i) && IsQueued(t, ty, j) && i != j ensures t[i].position != t[j].position {
      if Touches(jobs, w, i) {
        assert !HitsQueuedRow(jobs, w, i);
        assert !SharePosition(t, i, j);
      } else if Touches(jobs, w, j) {
        assert !HitsQueuedRow(jobs, w, j);
        assert !SharePosition(t, j, i);
      } else {
        UntouchedRow(jobs, w, i);
        UntouchedRow(jobs, w, j);
        assert IsQueued(jobs, ty, i) && IsQueued(jobs, ty, j);
      }
    }
  }

  /** One commit, exactly: positions stay in order unless it puts a row on a queued row's position. */
  lemma CommitKeepsPositionsIffFree(jobs: Table, w: Pending)
    requires Fits(jobs, w) && PlanOk(w) && PositionsOk(jobs)
    ensures PositionsOk(Written(jobs, w)) <==> !Collides(jobs, w)
  {
    if Collides(jobs, w) { CollisionBreaks(jobs, w); } else { NoCollisionKeeps(jobs, w); }
  }

  // ---------------------------------------------------------------- what plans look like

  lemma RenumberWritesListedRows(t: Table, ids: seq<int>, base: int, ty: ScheduleType, i: int)
    requires AreRows(t, ids) && Distinct(ids) && 0 <= i < |t| && t[i].status != Queued
    requires forall k :: 0 <= k < |ids| ==> t[ids[k]].status == Queued
    ensures Renumber(t, ids, base, ty)[i] == t[i]
  {
    assert i !in ids;
  }

  lemma RewriteWritesQueuedRows(t: Table, ids: seq<int>, i: int)
    requires RewritePositions(t, ids).Ok? && 0 <= i < |t| && t[i].status != Queued
    ensures |RewritePositions(t, ids).value| == |t| && RewritePositions(t, ids).value[i] == t[i]
  {
    QueueRefinement.RewriteIsRenumber(t, ids);
    var ordered := Dedup(ids);
    forall k | 0 <= k < |ordered| ensures t[ordered[k]].status == Queued {
      var id := ordered[k];
      assert id in ordered;
      assert IsQueued(t, Immediate, id);
    }
    RenumberWritesListedRows(t, ordered, 0, Immediate, i);
  }

  /** No edit touches a row that is not queued. */
  lemma EditWritesQueuedRows(t: Table, e: Edit, i: int)
    requires Names(t, e) && 0 <= i < |t| && t[i].status != Queued
    ensures i < |ApplyEdit(t, e)| && ApplyEdit(t, e)[i] == t[i]
  {
    QueueListsRows(t, Immediate);
    QueueListsRows(t, Nightly);
    if TryEdit(t, e).Ok? {
      match e
      case Reorder(ids) => RewriteWritesQueuedRows(t, ids, i);
      case ToTop(id) => RewriteWritesQueuedRows(t, [id] + Without(Queue(t, Immediate), id), i);
      case ToBottom(id) => RewriteWritesQueuedRows(t, Without(Queue(t, Immediate), id) + [id], i);
      case Promote => RenumberWritesListedRows(t, Queue(t, Nightly), BasePosition(t, Immediate), Immediate, i);
      case Compact => RenumberWritesListedRows(t, Queue(t, Immediate), 0, Immediate, i);
      case _ =>
    }
  }

  /** A plan made from a table in order writes positions of at least 1. */
  lemma PlansAreOk(t: Table, e: Edit)
    requires Names(t, e) && PositionsOk(t)
    ensures PlanOk(Pending(t, ApplyEdit(t, e))) && Fits(t, Pending(t, ApplyEdit(t, e)))
  {
    var u := ApplyEdit(t, e);
    QueueRefinement.EditKeepsStatuses(t, e);
    QueueRefinement.EditKeepsPositions(t, e);
    forall i | 0 <= i < |u| && (i >= |t| || u[i] != t[i]) ensures u[i].position >= 1 {
      if i < |t| && t[i].status != Queued { EditWritesQueuedRows(t, e, i); }
      assert IsQueued(u, u[i].schedule, i);
    }
  }

  /** Read and commit with nothing in between are the edit itself. */
  lemma AdjacentCommitIsTheEdit(t: Table, e: Edit)
    requires Names(t, e)
    ensures Fits(t, Pending(t, ApplyEdit(t, e))) && Written(t, Pending(t, ApplyEdit(t, e))) == ApplyEdit(t, e)
    ensures PositionsOk(t) ==> !Collides(t, Pending(t, ApplyEdit(t, e)))
  {
    var u := ApplyEdit(t, e);
    QueueRefinement.EditKeepsStatuses(t, e);
    assert Written(t, Pending(t, u)) == u;
    if PositionsOk(t) {
      PlansAreOk(t, e);
      QueueRefinement.EditKeepsPositions(t, e);
      CommitKeepsPositionsIffFree(t, Pending(t, u));
    }
  }

  // ---------------------------------------------------------------- whole runs

  /** Every pending plan was made from an earlier table and writes positions of at least 1. */
  ghost predicate PendingOk(r: Race) {
    forall c :: c in r.pending ==> Fits(r.jobs, r.pending[c]) && PlanOk(r.pending[c])
  }

  predicate Playable(r: Race, moves: seq<Move>)
    decreases |moves|
  {
    moves == [] || (CanMove(r, moves[0]) && Playable(Moved(r, moves[0]), moves[1..]))
  }

  function Play(r: Race, moves: seq<Move>): Race
    requires Playable(r, moves)
    decreases |moves|
  {
    if moves == [] then r else Play(Moved(r, moves[0]), moves[1..])
  }

  ghost predicate CollidesNow(r: Race, m: Move)
    requires CanMove(r, m)
  {
    m.Commit? && Collides(r.jobs, r.pending[m.c])
  }

  lemma MoveKeepsPositionsIffFree(r: Race, m: Move)
    requires CanMove(r, m) && PositionsOk(r.jobs) && PendingOk(r)
    ensures PositionsOk(Moved(r, m).jobs) <==> !CollidesNow(r, m)
    ensures PendingOk(Moved(r, m))
  {
    match m
    case Read(_, e) => PlansAreOk(r.jobs, e);
    case Commit(c) => CommitKeepsPositionsIffFree(r.jobs, r.pending[c]);
    case Leave(id, status) =>
      var t := SetStatus(r.jobs, id, status);
      assert forall ty, i :: IsQueued(t, ty, i) ==> IsQueued(r.jobs, ty, i) && t[i] == r.jobs[i];
  }

  /** Positions are in order after every move of the run. */
  ghost predicate OkThroughout(r: Race, moves: seq<Move>)
    requires Playable(r, moves)
    decreases |moves|
  {
    PositionsOk(r.jobs) && (moves == [] || OkThroughout(Moved(r, moves[0]), moves[1..]))
  }

  ghost predicate NoCollision(r: Race, moves: seq<Move>)
    requires Playable(r, moves)
    decreases |moves|
  {
    moves == [] || (!CollidesNow(r, moves[0]) && NoCollision(Moved(r, moves[0]), moves[1..]))
  }

  /**
    Over every interleaving of reads and commits of every edit, positions stay unique and at
    least 1 if and only if no commit puts a queued row on the position of another one of its type.
   */
  lemma {:induction false} UniqueIffNoCollision(r: Race, moves: seq<Move>)
    requires Playable(r, moves) && PositionsOk(r.jobs) && PendingOk(r)
    ensures OkThroughout(r, moves) <==> NoCollision(r, moves)
    decreases |moves|
  {
    if moves != [] {
      MoveKeepsPositionsIffFree(r, moves[0]);
      if !CollidesNow(r, moves[0]) {
        UniqueIffNoCollision(Moved(r, moves[0]), moves[1..]);
      }
    }
  }

  // ---------------------------------------------------------------- the failing families

  lemma PlayCons(r: Race, m: Move, rest: seq<Move>)
    requires CanMove(r, m) && Playable(Moved(r, m), rest)
    ensures Playable(r, [m] + rest) && Play(r, [m] + rest) == Play(Moved(r, m), rest)
  {
    assert ([m] + rest)[1..] == rest;
  }

  lemma PlayFour(r: Race, a: Move, b: Move, c: Move, d: Move)
    requires CanMove(r, a) && CanMove(Moved(r, a), b) && CanMove(Moved(Moved(r, a), b), c)
    requires CanMove(Moved(Moved(Moved(r, a), b), c), d)
    ensures Playable(r, [a, b, c, d]) && Play(r, [a, b, c, d]) == Moved(Moved(Moved(Moved(r, a), b), c), d)
  {
    var r1 := Moved(r, a);
    var r2 := Moved(r1, b);
    var r3 := Moved(r2, c);
    PlayCons(r3, d, []);
    PlayCons(r2, c, [d] + []);
    PlayCons(r1, b, [c] + ([d] + []));
    PlayCons(r, a, [b] + ([c] + ([d] + [])));
    assert [a, b, c, d] == [a] + ([b] + ([c] + ([d] + [])));
  }

  /** A request that commits on the table another one left meanwhile. */
  lemma LateCommit(r: Race, late: Edit, quick: Edit)
    requires r.pending == map[] && Names(r.jobs, late) && Names(r.jobs, quick)
    requires Fits(ApplyEdit(r.jobs, quick), Pending(r.jobs, ApplyEdit(r.jobs, late)))
    ensures var moves := [Read(0, late), Read(1, quick), Commit(1), Commit(0)];
            Playable(r, moves) &&
            Play(r, moves).jobs == Written(ApplyEdit(r.jobs, quick), Pending(r.jobs, ApplyEdit(r.jobs, late)))
  {
    AdjacentCommitIsTheEdit(r.jobs, quick);
    PlayFour(r, Read(0, late), Read(1, quick), Commit(1), Commit(0));
  }

  /** Two removals from the nightly set that both read before either commits share a position. */
  lemma InterleavedRemovalsCollide(r: Race, a: int, b: int)
    requires r.pending == map[] && a != b && IsQueued(r.jobs, Nightly, a) && IsQueued(r.jobs, Nightly, b)
    ensures var moves := [Read(0, Unenroll(a)), Read(1, Unenroll(b)), Commit(0), Commit(1)];
            Playable(r, moves) && !PositionsOk(Play(r, moves).jobs)
  {
    var r2 := Moved(Moved(r, Read(0, Unenroll(a))), Read(1, Unenroll(b)));
    var u := Moved(Moved(r2, Commit(0)), Commit(1)).jobs;
    PlayFour(r, Read(0, Unenroll(a)), Read(1, Unenroll(b)), Commit(0), Commit(1));
    assert u[a].position == u[b].position == NextPosition(r.jobs, Immediate);
    assert IsQueued(u, Immediate, a) && IsQueued(u, Immediate, b);
  }

  lemma PairIsQueued(t: Table, a: int, b: int)
    requires Queue(t, Immediate) == [a, b]
    ensures a != b && IsQueued(t, Immediate, a) && IsQueued(t, Immediate, b)
  {
    QueueSpec(t, Immediate);
    var q := Queue(t, Immediate);
    assert q[0] == a && q[1] == b;
  }

  lemma SwapPlan(t: Table, a: int, b: int)
    requires Queue(t, Immediate) == [a, b] && a != b && AreRows(t, [b, a])
    requires IsQueued(t, Immediate, a) && IsQueued(t, Immediate, b)
    ensures ApplyEdit(t, Reorder([b, a])) == Renumber(t, [b, a], 0, Immediate)
  {
    QueueRefinement.DedupOfDistinct([b, a]);
    assert SameElements([b, a], Queue(t, Immediate));
    assert RewritePositions(t, [b, a]).Ok?;
  }

  /** The plan of a compaction that read t. */
  function CompactionOf(t: Table): Pending {
    Pending(t, CompactPositions(t))
  }

  /** The compaction's plan writes only the second job's row, and puts it where the swap put the first. */
  lemma StalePlan(t: Table, a: int, b: int)
    requires Queue(t, Immediate) == [a, b] && a != b && AreRows(t, [b, a]) && AreRows(t, [a, b])
    requires IsQueued(t, Immediate, a) && IsQueued(t, Immediate, b)
    requires t[a].position == 1 && t[b].position > 2
    ensures var u := Renumber(t, [b, a], 0, Immediate);
            Fits(u, CompactionOf(t)) && SharePosition(Written(u, CompactionOf(t)), a, b)
  {
    var u := Renumber(t, [b, a], 0, Immediate);
    assert u[[b, a][0]].position == 1 && u[[b, a][1]].position == 2;
    var c := CompactPositions(t);
    assert c == Renumber(t, [a, b], 0, Immediate);
    assert c[[a, b][0]].position == 1 && c[[a, b][1]].position == 2;
    var w := Written(u, CompactionOf(t));
    assert w[a].position == 2 && w[b].position == 2;
    assert IsQueued(w, Immediate, a) && IsQueued(w, Immediate, b);
  }

  /**
    No appending request takes part: a compaction reads, a reorder of the two jobs commits, and
    the stale compaction, which writes only the second job's row, undoes half of it.
   */
  lemma StaleCompactionCollides(r: Race, a: int, b: int)
    requires r.pending == map[] && Queue(r.jobs, Immediate) == [a, b]
    requires 0 <= a < |r.jobs| && 0 <= b < |r.jobs| && r.jobs[a].position == 1 && r.jobs[b].position > 2
    ensures var moves := [Read(0, Compact), Read(1, Reorder([b, a])), Commit(1), Commit(0)];
            Playable(r, moves) && !PositionsOk(Play(r, moves).jobs)
  {
    var t := r.jobs;
    PairIsQueued(t, a, b);
    SwapPlan(t, a, b);
    StalePlan(t, a, b);
    LateCommit(r, Compact, Reorder([b, a]));
  }

  // ---------------------------------------------------------------- late compactions

  lemma CompactionRows(t: Table, i: int)
    requires 0 <= i < |t|
    ensures |CompactPositions(t)| == |t| && CompactPositions(t)[i].schedule == t[i].schedule
    ensures CompactPositions(t)[i].status == t[i].status
    ensures !IsQueued(t, Immediate, i) ==> CompactPositions(t)[i] == t[i]
  {
    var q := Queue(t, Immediate);
    QueueSpec(t, Immediate);
    QueueListsRows(t, Immediate);
    if i in q {
      var k :| 0 <= k < |q| && q[k] == i;
      assert CompactPositions(t)[q[k]] == t[q[k]].(position := 0 + k + 1, schedule := Immediate);
    }
  }

  /** Every pair of queued rows of a type keeps its order. */
  predicate KeepsOrder(u: Table, w: Table) {
    forall ty, a, b :: 0 <= a < |u| && 0 <= b < |u| && IsQueued(u, ty, a) && IsQueued(u, ty, b) && Before(u, a, b)
      ==> Before(w, a, b)
  }

  lemma EarlierInQueue(t: Table, ty: ScheduleType, i: nat, j: nat)
    requires i < |Queue(t, ty)| && j < |Queue(t, ty)| && Before(t, Queue(t, ty)[i], Queue(t, ty)[j])
    ensures i < j
  {
    QueueSpec(t, ty);
  }

  lemma OrderIsQueue(u: Table, w: Table, ty: ScheduleType)
    requires |u| == |w| && forall i :: 0 <= i < |u| ==> u[i].status == w[i].status && u[i].schedule == w[i].schedule
    ensures Queue(w, ty) == Queue(u, ty) <==>
            forall a, b :: IsQueued(u, ty, a) && IsQueued(u, ty, b) && Before(u, a, b) ==> Before(w, a, b)
  {
    QueueSpec(u, ty);
    QueueSpec(w, ty);
    var q := Queue(u, ty);
    if Queue(w, ty) == q {
      forall a, b | IsQueued(u, ty, a) && IsQueued(u, ty, b) && Before(u, a, b) ensures Before(w, a, b) {
        assert a in q && b in q;
        var i :| 0 <= i < |q| && q[i] == a;
        var j :| 0 <= j < |q| && q[j] == b;
        EarlierInQueue(u, ty, i, j);
        assert Before(w, q[i], q[j]);
      }
    }
    if forall a, b :: IsQueued(u, ty, a) && IsQueued(u, ty, b) && Before(u, a, b) ==> Before(w, a, b) {
      forall i, j | 0 <= i < j < |q| ensures Before(w, q[i], q[j]) {
        assert q[i] in q && q[j] in q;
        assert Before(u, q[i], q[j]);
      }
      QueueRefinement.Recognize(w, ty, q);
    }
  }

  /** A late compaction leaves both sequences as they are exactly when it keeps every pair in order. */
  lemma LateCompactionIff(t: Table, u: Table)
    requires |t| <= |u|
    ensures Fits(u, CompactionOf(t))
    ensures Abs(Written(u, CompactionOf(t))) == Abs(u) <==> KeepsOrder(u, Written(u, CompactionOf(t)))
  {
    forall i | 0 <= i < |t| ensures CompactPositions(t)[i].schedule == t[i].schedule { CompactionRows(t, i); }
    QueueListsRows(t, Immediate);
    var w := Written(u, CompactionOf(t));
    OrderIsQueue(u, w, Immediate);
    OrderIsQueue(u, w, Nightly);
  }

  predicate Joined(t: Table, u: Table, j: int) {
    IsQueued(u, Immediate, j) && !IsQueued(t, Immediate, j)
  }

  /**
    Nothing moved since the compaction read t: its rows are as they were or left the queue, and
    what joined the immediate queue joined it at the end.
   */
  predicate QuietSince(t: Table, u: Table) {
    && |t| <= |u|
    && (forall i :: 0 <= i < |t| && IsQueued(t, Immediate, i) ==> u[i] == t[i] || u[i].status != Queued)
    && (forall i, j :: 0 <= i < |t| && 0 <= j < |u| && IsQueued(t, Immediate, i) && Joined(t, u, j) ==>
          t[i].position < u[j].position)
  }

  lemma {:induction false} IndexBelowPosition(t: Table, k: nat)
    requires PositionsOk(t) && k < |Queue(t, Immediate)|
    ensures 0 <= Queue(t, Immediate)[k] < |t| && t[Queue(t, Immediate)[k]].position >= k + 1
    decreases k
  {
    var q := Queue(t, Immediate);
    QueueListsRows(t, Immediate);
    QueueSpec(t, Immediate);
    assert IsQueued(t, Immediate, q[k]);
    if k > 0 {
      IndexBelowPosition(t, k - 1);
      assert Before(t, q[k - 1], q[k]);
      assert IsQueued(t, Immediate, q[k - 1]) && q[k - 1] != q[k];
    }
  }

  /** Where a compaction puts the k-th job, whether or not it has to write it. */
  lemma QuietRow(t: Table, u: Table, k: nat)
    requires QuietSince(t, u) && PositionsOk(t) && k < |Queue(t, Immediate)| && Fits(u, CompactionOf(t))
    requires var i := Queue(t, Immediate)[k]; 0 <= i < |u| && u[i].status == Queued
    ensures var i := Queue(t, Immediate)[k];
            i < |t| && u[i] == t[i] && Written(u, CompactionOf(t))[i].position == k + 1 <= u[i].position
  {
    QueueListsRows(t, Immediate);
    IndexBelowPosition(t, k);
    var i := Queue(t, Immediate)[k];
    assert IsQueued(t, Immediate, i);
    assert CompactPositions(t)[i] == t[i].(position := 0 + k + 1, schedule := Immediate);
  }

  lemma QuietPair(t: Table, u: Table, ty: ScheduleType, a: int, b: int)
    requires QuietSince(t, u) && PositionsOk(t) && Fits(u, CompactionOf(t))
    requires IsQueued(u, ty, a) && IsQueued(u, ty, b) && Before(u, a, b)
    ensures Before(Written(u, CompactionOf(t)), a, b)
  {
    var q, w := Queue(t, Immediate), Written(u, CompactionOf(t));
    QueueSpec(t, Immediate);
    if a < |t| { CompactionRows(t, a); }
    if b < |t| { CompactionRows(t, b); }
    if IsQueued(t, Immediate, a) {
      assert a in q;
      var k :| 0 <= k < |q| && q[k] == a;
      QuietRow(t, u, k);
      if IsQueued(t, Immediate, b) {
        assert b in q;
        var l :| 0 <= l < |q| && q[l] == b;
        QuietRow(t, u, l);
        EarlierInQueue(t, Immediate, k, l);
      }
    }
  }

  /** A compaction that commits late is harmless when jobs only left or were appended meanwhile. */
  lemma QuietCompactionIsHarmless(t: Table, u: Table)
    requires QuietSince(t, u) && PositionsOk(t)
    ensures Fits(u, CompactionOf(t)) && Abs(Written(u, CompactionOf(t))) == Abs(u)
  {
    LateCompactionIff(t, u);
    forall ty, a, b | 0 <= a < |u| && 0 <= b < |u| && IsQueued(u, ty, a) && IsQueued(u, ty, b) && Before(u, a, b)
      ensures Before(Written(u, CompactionOf(t)), a, b)
    {
      QuietPair(t, u, ty, a, b);
    }
  }

  // ---------------------------------------------------------------- the repair

  /** Shared positions never lose or reorder a job, and the next compaction makes them unique again. */
  lemma CompactionRepairs(t: Table)
    ensures Abs(CompactPositions(t)) == Abs(t)
    ensures var u := CompactPositions(t);
            forall i, j :: IsQueued(u, Immediate, i) && IsQueued(u, Immediate, j) && i != j ==>
              u[i].position != u[j].position
  {
    QueueRefinement.CompactStutters(t);
    var u := CompactPositions(t);
    QueueSpec(u, Immediate);
    var q := Queue(u, Immediate);
    forall i, j | IsQueued(u, Immediate, i) && IsQueued(u, Immediate, j) && i != j
      ensures u[i].position != u[j].position
    {
      assert i in q && j in q;
      var k :| 0 <= k < |q| && q[k] == i;
      var l :| 0 <= l < |q| && q[l] == j;
    }
  }
}
