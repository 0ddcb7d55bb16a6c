/**
  The integer positions refine two plain sequences of job ids: every queue operation of
  app/services/scheduling.py does to the sorted queues exactly what AbsEdit does to two
  sequences, and keeps the positions unique and at least 1.
 */
module QueueRefinement {
  import opened Wrappers
  import opened JobQueue
  import opened Sequences

  function Other(ty: ScheduleType): ScheduleType {
    if ty == Immediate then Nightly else Immediate
  }

  // ---------------------------------------------------------------- sequences

  lemma {:induction false} WithoutKeepsSorted(t: Table, q: seq<int>, id: int)
    requires Sorted(t, q)
    ensures Sorted(t, Without(q, id))
  {
    if q != [] {
      var rest := Without(q[1..], id);
      WithoutKeepsSorted(t, q[1..], id);
      forall j | 0 <= j < |rest| ensures Before(t, q[0], rest[j]) {
        assert rest[j] in rest;
        var k :| 0 <= k < |q[1..]| && q[1..][k] == rest[j];
        assert q[k + 1] == rest[j];
      }
    }
  }

  lemma {:induction false} DistinctWithout(q: seq<int>, id: int)
    requires Distinct(q)
    ensures Distinct(Without(q, id))
    ensures id in q ==> |Without(q, id)| == |q| - 1
  {
    if q != [] {
      var rest := Without(q[1..], id);
      DistinctWithout(q[1..], id);
      assert q[0] !in q[1..];
      assert q == [q[0]] + q[1..];
      assert q[0] !in rest;
    }
  }

  lemma {:induction false} DedupOfDistinct(ids: seq<int>)
    requires Distinct(ids)
    ensures Dedup(ids) == ids
  {
    if ids != [] {
      var n := |ids| - 1;
      DedupOfDistinct(ids[..n]);
      assert ids[n] !in ids[..n];
      assert ids == ids[..n] + [ids[n]];
    }
  }

  ghost predicate InFirstOrder(ids: seq<int>, d: seq<int>) {
    && (forall i :: 0 <= i < |d| ==> d[i] in ids)
    && (forall i, j :: 0 <= i < j < |d| ==> FirstAt(ids, d[i]) < FirstAt(ids, d[j]))
  }

  /** The deduplicated list has the submitted ids, each once, in order of first occurrence. */
  lemma {:induction false} DedupKeepsFirstOrder(ids: seq<int>)
    ensures InFirstOrder(ids, Dedup(ids)) && Distinct(Dedup(ids))
    ensures forall x :: x in Dedup(ids) <==> x in ids
    decreases |ids|
  {
    if ids != [] {
      var n := |ids| - 1;
      var first := Dedup(ids[..n]);
      DedupKeepsFirstOrder(ids[..n]);
      forall i | 0 <= i < |first| ensures first[i] in ids && FirstAt(ids, first[i]) == FirstAt(ids[..n], first[i]) {
        assert first[i] in first;
        FirstAtPrefix(ids, n, first[i]);
      }
      assert ids[n] in ids;
      assert ids[n] !in first ==> ids[n] !in ids[..n] && FirstAt(ids, ids[n]) == n;
    }
  }

  // ---------------------------------------------------------------- one table change at a time

  /** A queue listing that passes the two defining conditions is the queue. */
  lemma Recognize(t: Table, ty: ScheduleType, q: seq<int>)
    requires IsQueue(t, ty, q)
    ensures Queue(t, ty) == q
  {
    QueueSpec(t, ty);
  }

  /** Rows outside a queue do not matter to it. */
  lemma QueueUntouched(t: Table, t': Table, ty: ScheduleType)
    requires |t| <= |t'|
    requires forall i :: 0 <= i < |t| && (IsQueued(t, ty, i) || IsQueued(t', ty, i)) ==> t[i] == t'[i]
    requires forall i :: |t| <= i < |t'| ==> !IsQueued(t', ty, i)
    ensures Queue(t', ty) == Queue(t, ty)
  {
    QueueSpec(t, ty);
    var q := Queue(t, ty);
    forall i, j | 0 <= i < j < |q| ensures Before(t', q[i], q[j]) {
      assert q[i] in q && q[j] in q;
      assert Before(t, q[i], q[j]);
    }
    Recognize(t', ty, q);
  }

  lemma TopIsLast(t: Table, ty: ScheduleType, id: int)
    requires IsQueued(t, ty, id)
    ensures t[id].position < NextPosition(t, ty)
  {
    var top := TopPosition(t, ty, |t|);
    assert top.Some?;
  }

  lemma EnqueueAppends(t: Table, ty: ScheduleType)
    ensures Queue(EnqueueRow(t, ty), ty) == Queue(t, ty) + [|t|]
    ensures Queue(EnqueueRow(t, ty), Other(ty)) == Queue(t, Other(ty))
  {
    var t' := EnqueueRow(t, ty);
    QueueSpec(t, ty);
    var q := Queue(t, ty);
    var q' := q + [|t|];
    forall i, j | 0 <= i < j < |q'| ensures Before(t', q'[i], q'[j]) {
      assert q[i] in q;
      if j < |q| {
        assert q[j] in q && Before(t, q[i], q[j]);
      } else {
        TopIsLast(t, ty, q[i]);
      }
    }
    Recognize(t', ty, q');
    QueueUntouched(t, t', Other(ty));
  }

  /** Taking one row out of the queued set removes its id and nothing else. */
  lemma LeavingRemoves(t: Table, id: int, row: Job, ty: ScheduleType)
    requires 0 <= id < |t|
    requires row.status != Queued || row.schedule != ty
    ensures Queue(t[id := row], ty) == Without(Queue(t, ty), id)
  {
    var t' := t[id := row];
    QueueSpec(t, ty);
    var q := Queue(t, ty);
    WithoutKeepsSorted(t, q, id);
    var r := Without(q, id);
    forall i, j | 0 <= i < j < |r| ensures Before(t', r[i], r[j]) {
      assert r[i] in r && r[j] in r;
      assert Before(t, r[i], r[j]);
    }
    Recognize(t', ty, r);
  }

  /** Flipping a queued job to the other type appends it there. */
  lemma SwitchingAppends(t: Table, id: int, ty: ScheduleType)
    requires IsQueued(t, Other(ty), id)
    ensures var t' := t[id := t[id].(schedule := ty, position := NextPosition(t, ty))];
            && Queue(t', ty) == Queue(t, ty) + [id]
            && Queue(t', Other(ty)) == Without(Queue(t, Other(ty)), id)
  {
    var t' := t[id := t[id].(schedule := ty, position := NextPosition(t, ty))];
    QueueSpec(t, ty);
    var q := Queue(t, ty);
    var q' := q + [id];
    forall i, j | 0 <= i < j < |q'| ensures Before(t', q'[i], q'[j]) {
      assert q[i] in q;
      if j < |q| {
        assert q[j] in q && Before(t, q[i], q[j]);
      } else {
        TopIsLast(t, ty, q[i]);
      }
    }
    Recognize(t', ty, q');
    LeavingRemoves(t, id, t'[id], Other(ty));
  }

  /** One past the position of the last job of a queue, 1 for an empty one. */
  function AfterLast(t: Table, ty: ScheduleType): int {
    QueueListsRows(t, ty);
    var q := Queue(t, ty);
    if q == [] then 1 else t[q[|q| - 1]].position + 1
  }

  lemma NextIsAfterLast(t: Table, ty: ScheduleType)
    ensures NextPosition(t, ty) == AfterLast(t, ty)
  {
    QueueSpec(t, ty);
    var q, top := Queue(t, ty), TopPosition(t, ty, |t|);
    if q != [] {
      assert q[|q| - 1] in q;
      TopIsLast(t, ty, q[|q| - 1]);
      var id :| 0 <= id < |t| && IsQueued(t, ty, id) && t[id].position == top.value;
      assert id in q;
      var k :| 0 <= k < |q| && q[k] == id;
      if k < |q| - 1 { assert Before(t, q[k], q[|q| - 1]); }
    } else {
      assert forall id :: IsQueued(t, ty, id) ==> id in q;
    }
  }

  /** What the appending edits write: the row's type and the position one past the last one's. */
  lemma AppendedPositions(t: Table, ty: ScheduleType, id: int)
    ensures ApplyEdit(t, Enqueue(ty)) == t + [Job(Queued, ty, AfterLast(t, ty))]
    ensures IsQueued(t, Immediate, id) ==>
              ApplyEdit(t, Enroll(id)) == t[id := t[id].(schedule := Nightly, position := AfterLast(t, Nightly))]
    ensures IsQueued(t, Nightly, id) ==>
              ApplyEdit(t, Unenroll(id)) == t[id := t[id].(schedule := Immediate, position := AfterLast(t, Immediate))]
  {
    NextIsAfterLast(t, Immediate);
    NextIsAfterLast(t, Nightly);
  }

  /** Promotion numbers the nightly jobs onwards from there, and writes no other row. */
  lemma PromotedPositions(t: Table)
    ensures var u, q := ApplyEdit(t, Promote), Queue(t, Nightly);
            && |u| == |t|
            && (forall k :: 0 <= k < |q| ==>
                  && 0 <= q[k] < |t|
                  && u[q[k]] == t[q[k]].(schedule := Immediate, position := AfterLast(t, Immediate) + k))
            && (forall i :: 0 <= i < |t| && i !in q ==> u[i] == t[i])
  {
    NextIsAfterLast(t, Immediate);
    QueueListsRows(t, Nightly);
  }

  /** Numbering the immediate jobs 1..n in a given order makes that order the queue. */
  lemma RenumberInstalls(t: Table, ids: seq<int>)
    requires AreRows(t, ids) && Distinct(ids)
    requires SameElements(ids, Queue(t, Immediate))
    ensures var t' := Renumber(t, ids, 0, Immediate);
            Queue(t', Immediate) == ids && Queue(t', Nightly) == Queue(t, Nightly) && Dense(t')
  {
    var t' := Renumber(t, ids, 0, Immediate);
    QueueSpec(t, Immediate);
    forall k | 0 <= k < |ids| ensures IsQueued(t', Immediate, ids[k]) && t'[ids[k]].position == k + 1 {
      assert ids[k] in ids;
    }
    forall id ensures id in ids <==> IsQueued(t', Immediate, id) {
      if 0 <= id < |t| && id !in ids { assert t'[id] == t[id]; }
    }
    Recognize(t', Immediate, ids);
    forall i | 0 <= i < |t| && (IsQueued(t, Nightly, i) || IsQueued(t', Nightly, i)) ensures t[i] == t'[i] {
      assert i !in ids;
    }
    QueueUntouched(t, t', Nightly);
  }

  lemma PromoteConcatenates(t: Table)
    ensures Queue(PromoteNightly(t), Immediate) == Queue(t, Immediate) + Queue(t, Nightly)
    ensures Queue(PromoteNightly(t), Nightly) == []
  {
    QueueListsRows(t, Nightly);
    QueueSpec(t, Nightly);
    QueueSpec(t, Immediate);
    var q, n := Queue(t, Immediate), Queue(t, Nightly);
    var base := BasePosition(t, Immediate);
    var t' := PromoteNightly(t);
    var q' := q + n;
    forall k | 0 <= k < |n| ensures IsQueued(t', Immediate, n[k]) && t'[n[k]].position == base + k + 1 {
      assert n[k] in n;
    }
    forall k | 0 <= k < |q|
      ensures 0 <= q[k] < |t| && t'[q[k]] == t[q[k]] && t'[q[k]].position <= base
    {
      assert q[k] in q && q[k] !in n;
      TopIsLast(t, Immediate, q[k]);
    }
    forall i, j | 0 <= i < j < |q'| ensures Before(t', q'[i], q'[j]) {
      if j < |q| {
        assert q[i] in q && q[j] in q && Before(t, q[i], q[j]);
      } else if i < |q| {
        assert q[i] in q && n[j - |q|] in n;
      } else {
        assert n[i - |q|] in n && n[j - |q|] in n;
      }
    }
    forall id ensures id in q' <==> IsQueued(t', Immediate, id) {
      if 0 <= id < |t| && id !in n { assert t'[id] == t[id]; }
    }
    Recognize(t', Immediate, q');
    forall id ensures !IsQueued(t', Nightly, id) {
      if 0 <= id < |t| && id !in n { assert t'[id] == t[id]; }
    }
    Recognize(t', Nightly, []);
  }

  // ---------------------------------------------------------------- the simulation

  /** The three checks of _rewrite_positions, said about the abstract queue. */
  lemma ReorderChecks(t: Table, ids: seq<int>)
    ensures var ordered, q := Dedup(ids), Queue(t, Immediate);
            && (ordered == [] <==> ids == [])
            && ((exists x :: x in ordered && !IsQueued(t, Immediate, x)) <==> (exists x :: x in ids && x !in q))
            && (SameElements(ids, q) <==> SameElements(ordered, q))
  {
    QueueSpec(t, Immediate);
    if ids != [] { assert ids[0] in Dedup(ids); }
    if Dedup(ids) != [] { assert Dedup(ids)[0] in ids; }
  }

  /** _rewrite_positions: exactly the three rejections, or exactly the deduplicated list. */
  lemma ReorderSimulates(t: Table, ids: seq<int>)
    ensures var r := RewritePositions(t, ids);
            match AbsEdit(Abs(t), |t|, Reorder(ids))
            case Ok(q) => r.Ok? && Abs(r.value) == q && Dense(r.value)
            case Err(e) => r == Err(e)
  {
    ReorderChecks(t, ids);
    var ordered := Dedup(ids);
    if RewritePositions(t, ids).Ok? {
      assert SameElements(ordered, Queue(t, Immediate)) by { QueueSpec(t, Immediate); }
      assert AreRows(t, ordered) by {
        assert forall k | 0 <= k < |ordered| :: ordered[k] in ordered;
      }
      RenumberInstalls(t, ordered);
    }
  }

  /** Rewriting to a permutation of the queue always succeeds and installs it. */
  lemma PermutationInstalls(t: Table, ids: seq<int>)
    requires ids != [] && Distinct(ids) && SameElements(ids, Queue(t, Immediate))
    ensures var r := RewritePositions(t, ids);
            r.Ok? && Abs(r.value) == Queues(ids, Queue(t, Nightly)) && Dense(r.value)
  {
    assert AbsEdit(Abs(t), |t|, Reorder(ids)) == Ok(Queues(ids, Queue(t, Nightly))) by {
      DedupOfDistinct(ids);
    }
    ReorderSimulates(t, ids);
  }

  /** A move never hits one of _rewrite_positions' own rejections. */
  lemma MoveSimulates(t: Table, e: Edit)
    requires e.ToTop? || e.ToBottom?
    requires Names(t, e)
    ensures match AbsEdit(Abs(t), |t|, e)
            case Ok(q) => TryEdit(t, e).Ok? && Abs(TryEdit(t, e).value) == q && Dense(TryEdit(t, e).value)
            case Err(x) => TryEdit(t, e) == Err(x)
  {
    QueueSpec(t, Immediate);
    QueueSpec(t, Nightly);
    var q := Queue(t, Immediate);
    var rest := Without(q, e.id);
    if IsQueued(t, Immediate, e.id) {
      DistinctWithout(q, e.id);
      if e.ToTop? {
        PermutationInstalls(t, [e.id] + rest);
      } else {
        PermutationInstalls(t, rest + [e.id]);
      }
    }
  }

  lemma SwitchSimulates(t: Table, e: Edit)
    requires e.Enroll? || e.Unenroll?
    requires Names(t, e)
    ensures match AbsEdit(Abs(t), |t|, e)
            case Ok(q) => TryEdit(t, e).Ok? && Abs(TryEdit(t, e).value) == q
            case Err(x) => TryEdit(t, e) == Err(x)
  {
    QueueSpec(t, Immediate);
    QueueSpec(t, Nightly);
    var ty := if e.Enroll? then Nightly else Immediate;
    if IsQueued(t, Other(ty), e.id) {
      SwitchingAppends(t, e.id, ty);
    }
  }

  lemma CompactStutters(t: Table)
    ensures Abs(CompactPositions(t)) == Abs(t) && Dense(CompactPositions(t))
  {
    QueueListsRows(t, Immediate);
    RenumberInstalls(t, Queue(t, Immediate));
  }

  /**
    Forward simulation.  Every edit is accepted or rejected exactly as AbsEdit says, with the
    same reason, and an accepted edit leaves exactly the two sequences AbsEdit computes.
   */
  lemma EditSimulates(t: Table, e: Edit)
    requires Names(t, e)
    ensures match AbsEdit(Abs(t), |t|, e)
            case Ok(q) => TryEdit(t, e).Ok? && Abs(ApplyEdit(t, e)) == q
            case Err(x) => TryEdit(t, e) == Err(x) && ApplyEdit(t, e) == t
  {
    match e
    case Enqueue(ty) => EnqueueAppends(t, ty);
    case Reorder(ids) => ReorderSimulates(t, ids);
    case ToTop(_) => MoveSimulates(t, e);
    case ToBottom(_) => MoveSimulates(t, e);
    case Enroll(_) => SwitchSimulates(t, e);
    case Unenroll(_) => SwitchSimulates(t, e);
    case Promote => PromoteConcatenates(t);
    case Compact => CompactStutters(t);
  }

  /** Reorder and the two moves leave the immediate queue numbered 1..n. */
  lemma ReorderingIsDense(t: Table, e: Edit)
    requires Names(t, e)
    requires e.Reorder? || e.ToTop? || e.ToBottom? || e.Compact?
    requires TryEdit(t, e).Ok?
    ensures Dense(ApplyEdit(t, e))
  {
    match e
    case Reorder(ids) => ReorderSimulates(t, ids);
    case ToTop(_) => MoveSimulates(t, e);
    case ToBottom(_) => MoveSimulates(t, e);
    case Compact => CompactStutters(t);
  }

  /** A status change out of queued (claim, cancel) removes the id from its queue. */
  lemma StatusChangeRemoves(t: Table, id: int, status: JobStatus)
    requires 0 <= id < |t| && status != Queued
    ensures Abs(SetStatus(t, id, status)) ==
            Queues(Without(Queue(t, Immediate), id), Without(Queue(t, Nightly), id))
  {
    LeavingRemoves(t, id, t[id].(status := status), Immediate);
    LeavingRemoves(t, id, t[id].(status := status), Nightly);
  }

  /** A job that left the queue can change status without the queues noticing. */
  lemma OutsideTheQueue(t: Table, id: int, status: JobStatus)
    requires 0 <= id < |t| && t[id].status != Queued && status != Queued
    ensures Abs(SetStatus(t, id, status)) == Abs(t)
  {
    QueueUntouched(t, SetStatus(t, id, status), Immediate);
    QueueUntouched(t, SetStatus(t, id, status), Nightly);
  }

  // ---------------------------------------------------------------- positions

  lemma BaseIsNatural(t: Table, ty: ScheduleType)
    requires PositionsOk(t)
    ensures BasePosition(t, ty) >= 0
  {
    var top := TopPosition(t, ty, |t|);
    if top.Some? {
      var id :| 0 <= id < |t| && IsQueued(t, ty, id) && t[id].position == top.value;
    }
  }

  lemma RenumberKeepsPositions(t: Table, ids: seq<int>, base: int, ty: ScheduleType)
    requires PositionsOk(t) && AreRows(t, ids) && Distinct(ids) && base >= 0
    requires forall i :: IsQueued(t, ty, i) && i !in ids ==> t[i].position <= base
    ensures PositionsOk(Renumber(t, ids, base, ty))
  {
    var t' := Renumber(t, ids, base, ty);
    forall ty', i | IsQueued(t', ty', i) ensures t'[i].position >= 1 {
      if i !in ids { assert t'[i] == t[i] && IsQueued(t, ty', i); }
    }
    forall ty', i, j | IsQueued(t', ty', i) && IsQueued(t', ty', j) && i != j
      ensures t'[i].position != t'[j].position
    {
      if i !in ids { assert t'[i] == t[i] && IsQueued(t, ty', i); }
      if j !in ids { assert t'[j] == t[j] && IsQueued(t, ty', j); }
    }
  }

  lemma PlaceLastKeepsPositions(t: Table, id: int, ty: ScheduleType)
    requires PositionsOk(t) && 0 <= id < |t|
    ensures PositionsOk(t[id := t[id].(schedule := ty, position := NextPosition(t, ty))])
  {
    var t' := t[id := t[id].(schedule := ty, position := NextPosition(t, ty))];
    BaseIsNatural(t, ty);
    forall ty', i, j | IsQueued(t', ty', i) && IsQueued(t', ty', j) && i != j
      ensures t'[i].position != t'[j].position
    {
      if i != id { assert IsQueued(t, ty', i); if j == id { TopIsLast(t, ty, i); } }
      if j != id { assert IsQueued(t, ty', j); if i == id { TopIsLast(t, ty, j); } }
    }
    forall ty', i | IsQueued(t', ty', i) ensures t'[i].position >= 1 {
      if i != id { assert IsQueued(t, ty', i); }
    }
  }

  lemma EnqueueKeepsPositions(t: Table, ty: ScheduleType)
    requires PositionsOk(t)
    ensures PositionsOk(EnqueueRow(t, ty))
  {
    var t' := EnqueueRow(t, ty);
    BaseIsNatural(t, ty);
    forall ty', i | IsQueued(t', ty', i) ensures t'[i].position >= 1 {
      if i < |t| { assert IsQueued(t, ty', i); }
    }
    forall ty', i, j | IsQueued(t', ty', i) && IsQueued(t', ty', j) && i != j
      ensures t'[i].position != t'[j].position
    {
      if i < |t| { assert IsQueued(t, ty', i); if j == |t| { TopIsLast(t, ty, i); } }
      if j < |t| { assert IsQueued(t, ty', j); if i == |t| { TopIsLast(t, ty, j); } }
    }
  }

  lemma RewriteKeepsPositions(t: Table, ids: seq<int>)
    requires PositionsOk(t) && RewritePositions(t, ids).Ok?
    ensures PositionsOk(RewritePositions(t, ids).value)
  {
    var ordered := Dedup(ids);
    QueueSpec(t, Immediate);
    assert forall k | 0 <= k < |ordered| :: ordered[k] in ordered;
    RenumberKeepsPositions(t, ordered, 0, Immediate);
  }

  /** Every edit keeps the queued positions unique per type and at least 1. */
  lemma EditKeepsPositions(t: Table, e: Edit)
    requires Names(t, e) && PositionsOk(t)
    ensures PositionsOk(ApplyEdit(t, e))
  {
    if TryEdit(t, e).Ok? {
      match e
      case Enqueue(ty) => EnqueueKeepsPositions(t, ty);
      case Reorder(ids) => RewriteKeepsPositions(t, ids);
      case ToTop(id) => RewriteKeepsPositions(t, [id] + Without(Queue(t, Immediate), id));
      case ToBottom(id) => RewriteKeepsPositions(t, Without(Queue(t, Immediate), id) + [id]);
      case Enroll(id) => PlaceLastKeepsPositions(t, id, Nightly);
      case Unenroll(id) => PlaceLastKeepsPositions(t, id, Immediate);
      case Promote =>
        QueueListsRows(t, Nightly);
        BaseIsNatural(t, Immediate);
        forall i | IsQueued(t, Immediate, i) ensures t[i].position <= BasePosition(t, Immediate) {
          TopIsLast(t, Immediate, i);
        }
        RenumberKeepsPositions(t, Queue(t, Nightly), BasePosition(t, Immediate), Immediate);
      case Compact =>
        QueueListsRows(t, Immediate);
        QueueSpec(t, Immediate);
        RenumberKeepsPositions(t, Queue(t, Immediate), 0, Immediate);
    }
  }

  // ---------------------------------------------------------------- what edits leave alone

  lemma RenumberKeepsStatuses(t: Table, ids: seq<int>, base: int, ty: ScheduleType)
    requires AreRows(t, ids) && Distinct(ids)
    ensures var t' := Renumber(t, ids, base, ty);
            |t'| == |t| && forall i :: 0 <= i < |t| ==> t'[i].status == t[i].status
  {
    var t' := Renumber(t, ids, base, ty);
    forall i | 0 <= i < |t| ensures t'[i].status == t[i].status {
      if i in ids {
        var k :| 0 <= k < |ids| && ids[k] == i;
        assert t'[ids[k]] == t[ids[k]].(position := base + k + 1, schedule := ty);
      }
    }
  }

  /** No edit changes a status, deletes a row, or touches a row that is not queued. */
  lemma EditKeepsStatuses(t: Table, e: Edit)
    requires Names(t, e)
    ensures var t' := ApplyEdit(t, e);
            && |t'| == |t| + (if e.Enqueue? then 1 else 0)
            && (forall i :: 0 <= i < |t| ==> t'[i].status == t[i].status)
            && (forall i :: |t| <= i < |t'| ==> t'[i].status == Queued)
  {
    QueueListsRows(t, Immediate);
    QueueListsRows(t, Nightly);
    if TryEdit(t, e).Ok? {
      match e
      case Reorder(ids) => RewriteKeepsStatuses(t, ids);
      case ToTop(id) => RewriteKeepsStatuses(t, [id] + Without(Queue(t, Immediate), id));
      case ToBottom(id) => RewriteKeepsStatuses(t, Without(Queue(t, Immediate), id) + [id]);
      case Promote =>
        RenumberKeepsStatuses(t, Queue(t, Nightly), BasePosition(t, Immediate), Immediate);
      case Compact => RenumberKeepsStatuses(t, Queue(t, Immediate), 0, Immediate);
      case _ =>
    }
  }

  lemma RewriteKeepsStatuses(t: Table, ids: seq<int>)
    requires RewritePositions(t, ids).Ok?
    ensures var t' := RewritePositions(t, ids).value;
            |t'| == |t| && forall i :: 0 <= i < |t| ==> t'[i].status == t[i].status
  {
    RewriteIsRenumber(t, ids);
    RenumberKeepsStatuses(t, Dedup(ids), 0, Immediate);
  }

  lemma RewriteIsRenumber(t: Table, ids: seq<int>)
    requires RewritePositions(t, ids).Ok?
    ensures AreRows(t, Dedup(ids)) && RewritePositions(t, ids).value == Renumber(t, Dedup(ids), 0, Immediate)
  {
    var ordered := Dedup(ids);
    forall k | 0 <= k < |ordered| ensures 0 <= ordered[k] < |t| {
      var id := ordered[k];
      assert id in ordered;
      assert IsQueued(t, Immediate, id);
    }
  }
}
