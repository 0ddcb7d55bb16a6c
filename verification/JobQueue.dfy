/**
  The scheduled_job table and the queue operations of app/services/scheduling.py,
  as functions on the table.

  Rows are never deleted and ids are handed out in insertion order, so the table is a
  sequence and a job's id is its index.  Only the columns the scheduler looks at are kept.
  The last part says what the operations do to two plain sequences of job ids; QueueRefinement
  proves that the integer positions refine it.
 */
module JobQueue {
  import opened Wrappers

  datatype ScheduleType = Immediate | Nightly

  datatype JobStatus = Queued | Claimed | Running | Done | Failed | Cancelled

  datatype Job = Job(status: JobStatus, schedule: ScheduleType, position: int)

  type Table = seq<Job>

  datatype Rejection =
    | NoIds
    | UnknownOrNotQueued
    | QueueChanged
    | NotQueued
    | NotImmediate
    | NotNightly

  // ---------------------------------------------------------------- the sorted queue

  predicate IsQueued(t: Table, ty: ScheduleType, id: int) {
    0 <= id < |t| && t[id].status == Queued && t[id].schedule == ty
  }

  /** The ORDER BY (position, id) of every queue query. */
  predicate Before(t: Table, a: int, b: int) {
    0 <= a < |t| && 0 <= b < |t| &&
    (t[a].position < t[b].position || (t[a].position == t[b].position && a < b))
  }

  function Insert(t: Table, id: int, q: seq<int>): seq<int> {
    if q == [] || Before(t, id, q[0]) then [id] + q else [q[0]] + Insert(t, id, q[1..])
  }

  function QueueUpTo(t: Table, ty: ScheduleType, n: nat): seq<int>
    requires n <= |t|
  {
    if n == 0 then []
    else
      var q := QueueUpTo(t, ty, n - 1);
      if IsQueued(t, ty, n - 1) then Insert(t, n - 1, q) else q
  }

  /** The ids of the queued jobs of one schedule type, in queue order. */
  function Queue(t: Table, ty: ScheduleType): seq<int> {
    QueueUpTo(t, ty, |t|)
  }

  ghost predicate Sorted(t: Table, q: seq<int>) {
    forall i, j :: 0 <= i < j < |q| ==> Before(t, q[i], q[j])
  }

  ghost predicate IsQueue(t: Table, ty: ScheduleType, q: seq<int>) {
    && Sorted(t, q)
    && (forall id :: id in q <==> IsQueued(t, ty, id))
  }

  ghost predicate Distinct(q: seq<int>) {
    forall i, j :: 0 <= i < j < |q| ==> q[i] != q[j]
  }

  lemma {:induction false} InsertKeepsSorted(t: Table, id: int, q: seq<int>)
    requires 0 <= id < |t| && id !in q
    requires forall x :: x in q ==> 0 <= x < |t|
    requires Sorted(t, q)
    ensures Sorted(t, Insert(t, id, q))
    ensures forall x :: x in Insert(t, id, q) <==> x == id || x in q
  {
    if q == [] || Before(t, id, q[0]) {
      forall j | 0 <= j < |q| ensures Before(t, id, q[j]) {
        assert j == 0 || Before(t, q[0], q[j]);
      }
    } else {
      var rest := Insert(t, id, q[1..]);
      InsertKeepsSorted(t, id, q[1..]);
      assert q == [q[0]] + q[1..];
      forall j | 0 <= j < |rest| ensures Before(t, q[0], rest[j]) {
        assert rest[j] in rest;
        if rest[j] != id {
          var k :| 0 <= k < |q[1..]| && q[1..][k] == rest[j];
          assert q[k + 1] == rest[j];
        } else {
          assert q[0] in q;
        }
      }
    }
  }

  lemma {:induction false} QueueUpToIsSorted(t: Table, ty: ScheduleType, n: nat)
    requires n <= |t|
    ensures Sorted(t, QueueUpTo(t, ty, n))
    ensures forall x :: x in QueueUpTo(t, ty, n) <==> x < n && IsQueued(t, ty, x)
  {
    if n > 0 {
      QueueUpToIsSorted(t, ty, n - 1);
      if IsQueued(t, ty, n - 1) {
        InsertKeepsSorted(t, n - 1, QueueUpTo(t, ty, n - 1));
      }
    }
  }

  /** Nothing in a sorted listing comes before its head. */
  lemma HeadIsFirst(t: Table, q: seq<int>, id: int)
    requires Sorted(t, q) && id in q
    ensures id == q[0] || Before(t, q[0], id)
  {
  }

  /** Two sorted listings of the same jobs are equal. */
  lemma {:induction false} SortedUnique(t: Table, q: seq<int>, r: seq<int>)
    requires Sorted(t, q) && Sorted(t, r)
    requires forall x :: x in q <==> x in r
    ensures q == r
  {
    assert q != [] ==> q[0] in q;
    assert r != [] ==> r[0] in r;
    if q != [] {
      var a := q[0];
      assert a in r;
      var b := r[0];
      assert b in q;
      HeadIsFirst(t, q, b);
      HeadIsFirst(t, r, a);
      forall x ensures x in q[1..] <==> x in r[1..] {
        TailMembers(t, q, x);
        TailMembers(t, r, x);
      }
      SortedUnique(t, q[1..], r[1..]);
      assert q == [a] + q[1..] && r == [b] + r[1..];
    }
  }

  lemma TailMembers(t: Table, q: seq<int>, x: int)
    requires Sorted(t, q) && q != []
    ensures x in q[1..] <==> x in q && x != q[0]
  {
    if x in q[1..] {
      var k :| 0 <= k < |q[1..]| && q[1..][k] == x;
      assert Before(t, q[0], q[k + 1]);
    }
  }

  /** Queue is the one and only sorted listing of the queued jobs. */
  lemma QueueSpec(t: Table, ty: ScheduleType)
    ensures IsQueue(t, ty, Queue(t, ty))
    ensures Distinct(Queue(t, ty))
    ensures forall q :: IsQueue(t, ty, q) ==> q == Queue(t, ty)
  {
    QueueUpToIsSorted(t, ty, |t|);
    forall q | IsQueue(t, ty, q) ensures q == Queue(t, ty) {
      SortedUnique(t, q, Queue(t, ty));
    }
  }

  /** Earlier in the queue means a smaller position, or the same position and a smaller id. */
  lemma OrderedByPositionThenId(t: Table, ty: ScheduleType, i: nat, j: nat)
    requires i < j < |Queue(t, ty)|
    ensures var a, b := Queue(t, ty)[i], Queue(t, ty)[j];
            && IsQueued(t, ty, a) && IsQueued(t, ty, b)
            && (t[a].position < t[b].position || (t[a].position == t[b].position && a < b))
  {
    QueueSpec(t, ty);
    var q := Queue(t, ty);
    assert q[i] in q && q[j] in q && Before(t, q[i], q[j]);
  }

  // ---------------------------------------------------------------- operations on rows

  /** max(position) over the queued jobs of one type among the first n rows; None for SQL NULL. */
  function TopPosition(t: Table, ty: ScheduleType, n: nat): (top: Option<int>)
    requires n <= |t|
    ensures top.None? <==> forall id :: 0 <= id < n ==> !IsQueued(t, ty, id)
    ensures top.Some? ==> forall id :: 0 <= id < n && IsQueued(t, ty, id) ==> t[id].position <= top.value
    ensures top.Some? ==> exists id :: 0 <= id < n && IsQueued(t, ty, id) && t[id].position == top.value
  {
    if n == 0 then None
    else
      var rest := TopPosition(t, ty, n - 1);
      if !IsQueued(t, ty, n - 1) then rest
      else if rest.Some? && rest.value > t[n - 1].position then rest
      else Some(t[n - 1].position)
  }

  /** `top or 0` */
  function BasePosition(t: Table, ty: ScheduleType): int {
    var top := TopPosition(t, ty, |t|);
    if top.None? then 0 else top.value
  }

  function NextPosition(t: Table, ty: ScheduleType): int {
    BasePosition(t, ty) + 1
  }

  function EnqueueRow(t: Table, ty: ScheduleType): Table {
    t + [Job(Queued, ty, NextPosition(t, ty))]
  }

  /** Keep the first occurrence of every id, in order. */
  function Dedup(ids: seq<int>): (d: seq<int>)
    ensures Distinct(d)
    ensures forall x :: x in d <==> x in ids
  {
    if ids == [] then []
    else
      var last := ids[|ids| - 1];
      var d := Dedup(ids[..|ids| - 1]);
      assert forall x :: x in ids <==> x in ids[..|ids| - 1] || x == last;
      if last in d then d else d + [last]
  }

  ghost predicate AreRows(t: Table, ids: seq<int>) {
    forall k :: 0 <= k < |ids| ==> 0 <= ids[k] < |t|
  }

  /** Give the k-th listed job position base + k + 1 and schedule type ty. */
  function Renumber(t: Table, ids: seq<int>, base: int, ty: ScheduleType): (t': Table)
    requires AreRows(t, ids) && Distinct(ids)
    ensures |t'| == |t|
    ensures forall k :: 0 <= k < |ids| ==>
              t'[ids[k]] == t[ids[k]].(position := base + k + 1, schedule := ty)
    ensures forall i :: 0 <= i < |t| && i !in ids ==> t'[i] == t[i]
  {
    if ids == [] then t
    else
      var n := |ids| - 1;
      assert ids[n] !in ids[..n];
      assert forall x :: x in ids ==> x in ids[..n] || x == ids[n];
      var r := Renumber(t, ids[..n], base, ty);
      r[ids[n] := t[ids[n]].(position := base + n + 1, schedule := ty)]
  }

  function RewritePositions(t: Table, ids: seq<int>): Result<Table, Rejection> {
    var ordered := Dedup(ids);
    if ordered == [] then Err(NoIds)
    else if exists x :: x in ordered && !IsQueued(t, Immediate, x) then Err(UnknownOrNotQueued)
    else if exists x :: x in Queue(t, Immediate) && x !in ordered then Err(QueueChanged)
    else
      assert forall k | 0 <= k < |ordered| :: ordered[k] in ordered;
      Ok(Renumber(t, ordered, 0, Immediate))
  }

  function Without(q: seq<int>, id: int): (r: seq<int>)
    ensures forall x :: x in r <==> x in q && x != id
    ensures id !in q ==> r == q
  {
    if q == [] then []
    else if q[0] == id then Without(q[1..], id)
    else
      assert q == [q[0]] + q[1..];
      [q[0]] + Without(q[1..], id)
  }

  function RequireQueuedImmediate(t: Table, id: int): Result<(), Rejection>
    requires 0 <= id < |t|
  {
    if t[id].status != Queued then Err(NotQueued)
    else if t[id].schedule != Immediate then Err(NotImmediate)
    else Ok(())
  }

  function MoveToTop(t: Table, id: int): Result<Table, Rejection>
    requires 0 <= id < |t|
  {
    var check := RequireQueuedImmediate(t, id);
    if check.Err? then Err(check.error)
    else RewritePositions(t, [id] + Without(Queue(t, Immediate), id))
  }

  function MoveToBottom(t: Table, id: int): Result<Table, Rejection>
    requires 0 <= id < |t|
  {
    var check := RequireQueuedImmediate(t, id);
    if check.Err? then Err(check.error)
    else RewritePositions(t, Without(Queue(t, Immediate), id) + [id])
  }

  function EnrollNightly(t: Table, id: int): Result<Table, Rejection>
    requires 0 <= id < |t|
  {
    if t[id].status != Queued then Err(NotQueued)
    else if t[id].schedule == Nightly then Ok(t)
    else Ok(t[id := t[id].(schedule := Nightly, position := NextPosition(t, Nightly))])
  }

  function RemoveNightly(t: Table, id: int): Result<Table, Rejection>
    requires 0 <= id < |t|
  {
    if t[id].status != Queued then Err(NotQueued)
    else if t[id].schedule != Nightly then Err(NotNightly)
    else Ok(t[id := t[id].(schedule := Immediate, position := NextPosition(t, Immediate))])
  }

  function PromoteNightly(t: Table): Table {
    QueueListsRows(t, Nightly);
    Renumber(t, Queue(t, Nightly), BasePosition(t, Immediate), Immediate)
  }

  function CompactPositions(t: Table): Table {
    QueueListsRows(t, Immediate);
    Renumber(t, Queue(t, Immediate), 0, Immediate)
  }

  function SetStatus(t: Table, id: int, status: JobStatus): Table
    requires 0 <= id < |t|
  {
    t[id := t[id].(status := status)]
  }

  lemma QueueListsRows(t: Table, ty: ScheduleType)
    ensures AreRows(t, Queue(t, ty)) && Distinct(Queue(t, ty))
    ensures forall k :: 0 <= k < |Queue(t, ty)| ==> IsQueued(t, ty, Queue(t, ty)[k])
  {
    QueueSpec(t, ty);
    assert forall k | 0 <= k < |Queue(t, ty)| :: Queue(t, ty)[k] in Queue(t, ty);
  }

  // ---------------------------------------------------------------- all edits as one step

  datatype Edit =
    | Enqueue(ty: ScheduleType)
    | Reorder(ids: seq<int>)
    | ToTop(id: int)
    | ToBottom(id: int)
    | Enroll(id: int)
    | Unenroll(id: int)
    | Promote
    | Compact

  /** The row the request names exists (the routes answer 404 before calling the service). */
  predicate Names(t: Table, e: Edit) {
    match e
    case ToTop(id) => 0 <= id < |t|
    case ToBottom(id) => 0 <= id < |t|
    case Enroll(id) => 0 <= id < |t|
    case Unenroll(id) => 0 <= id < |t|
    case _ => true
  }

  function TryEdit(t: Table, e: Edit): Result<Table, Rejection>
    requires Names(t, e)
  {
    match e
    case Enqueue(ty) => Ok(EnqueueRow(t, ty))
    case Reorder(ids) => RewritePositions(t, ids)
    case ToTop(id) => MoveToTop(t, id)
    case ToBottom(id) => MoveToBottom(t, id)
    case Enroll(id) => EnrollNightly(t, id)
    case Unenroll(id) => RemoveNightly(t, id)
    case Promote => Ok(PromoteNightly(t))
    case Compact => Ok(CompactPositions(t))
  }

  /** A rejected edit raises before anything is written. */
  function ApplyEdit(t: Table, e: Edit): Table
    requires Names(t, e)
  {
    match TryEdit(t, e)
    case Ok(t') => t'
    case Err(_) => t
  }

  // ---------------------------------------------------------------- the abstract queues

  datatype Queues = Queues(immediate: seq<int>, nightly: seq<int>)

  function Abs(t: Table): Queues {
    Queues(Queue(t, Immediate), Queue(t, Nightly))
  }

  predicate SameElements(a: seq<int>, b: seq<int>) {
    (forall x :: x in a ==> x in b) && (forall x :: x in b ==> x in a)
  }

  /**
    What each edit does to two plain sequences of ids, with the same rejections.  `newId` is
    the id the next row gets.  Nothing here mentions a position.
   */
  function AbsEdit(q: Queues, newId: int, e: Edit): Result<Queues, Rejection> {
    match e
    case Enqueue(Immediate) => Ok(q.(immediate := q.immediate + [newId]))
    case Enqueue(Nightly) => Ok(q.(nightly := q.nightly + [newId]))
    case Reorder(ids) =>
      if ids == [] then Err(NoIds)
      else if exists x :: x in ids && x !in q.immediate then Err(UnknownOrNotQueued)
      else if !SameElements(ids, q.immediate) then Err(QueueChanged)
      else Ok(q.(immediate := Dedup(ids)))
    case ToTop(id) =>
      if id in q.immediate then Ok(q.(immediate := [id] + Without(q.immediate, id)))
      else if id in q.nightly then Err(NotImmediate) else Err(NotQueued)
    case ToBottom(id) =>
      if id in q.immediate then Ok(q.(immediate := Without(q.immediate, id) + [id]))
      else if id in q.nightly then Err(NotImmediate) else Err(NotQueued)
    case Enroll(id) =>
      if id in q.immediate then Ok(Queues(Without(q.immediate, id), q.nightly + [id]))
      else if id in q.nightly then Ok(q) else Err(NotQueued)
    case Unenroll(id) =>
      if id in q.nightly then Ok(Queues(q.immediate + [id], Without(q.nightly, id)))
      else if id in q.immediate then Err(NotNightly) else Err(NotQueued)
    case Promote => Ok(Queues(q.immediate + q.nightly, []))
    case Compact => Ok(q)
  }

  /** Queued positions are at least 1 and unique within their schedule type. */
  ghost predicate PositionsOk(t: Table) {
    && (forall ty, i :: IsQueued(t, ty, i) ==> t[i].position >= 1)
    && (forall ty, i, j :: IsQueued(t, ty, i) && IsQueued(t, ty, j) && i != j ==>
          t[i].position != t[j].position)
  }

  /** The immediate queue is numbered 1..n. */
  ghost predicate Dense(t: Table) {
    var q := Queue(t, Immediate);
    forall k :: 0 <= k < |q| ==> IsQueued(t, Immediate, q[k]) && t[q[k]].position == k + 1
  }
}
