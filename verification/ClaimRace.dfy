/**
  The claim of app/services/scheduling.py taken apart: many claimers each select the lowest
  queued immediate job and later update it under the guard "still queued".  Even without the
  write lock around the pair, the guard alone makes sure that no job is claimed twice.
 */
module ClaimRace {
  import opened Wrappers
  import opened JobQueue
  import QueueRefinement

  /** selected: claimers between their two statements; claimed: ids handed out, oldest first. */
  datatype Race = Race(jobs: Table, selected: map<int, int>, claimed: seq<int>)

  datatype Move =
    | Select(c: int)
    | Update(c: int)
    | Elsewhere(edit: Edit)                        // any queue edit by a request
    | Leave(id: int, status: JobStatus)            // any other commit: a job leaves or stays out of the queue

  predicate CanMove(r: Race, m: Move) {
    match m
    case Select(c) => c !in r.selected && Queue(r.jobs, Immediate) != []
    case Update(c) => c in r.selected && 0 <= r.selected[c] < |r.jobs|
    case Elsewhere(e) => Names(r.jobs, e)
    case Leave(id, status) => 0 <= id < |r.jobs| && status != Queued
  }

  /** UPDATE ... WHERE id = :id AND status = 'queued'; rowcount tells whether it hit. */
  function GuardedUpdate(r: Race, c: int): Race
    requires c in r.selected && 0 <= r.selected[c] < |r.jobs|
  {
    var id := r.selected[c];
    var rest := r.selected - {c};
    if r.jobs[id].status == Queued
    then Race(SetStatus(r.jobs, id, Claimed), rest, r.claimed + [id])
    else r.(selected := rest)
  }

  function Moved(r: Race, m: Move): Race
    requires CanMove(r, m)
  {
    match m
    case Select(c) => r.(selected := r.selected[c := Queue(r.jobs, Immediate)[0]])
    case Update(c) => GuardedUpdate(r, c)
    case Elsewhere(e) => r.(jobs := ApplyEdit(r.jobs, e))
    case Leave(id, status) => r.(jobs := SetStatus(r.jobs, id, status))
  }

  function Play(r: Race, moves: seq<Move>): Option<Race>
    decreases |moves|
  {
    if moves == [] then Some(r)
    else if CanMove(r, moves[0]) then Play(Moved(r, moves[0]), moves[1..])
    else None
  }

  /** Handed-out ids are distinct and none of them is queued any more. */
  ghost predicate OncePerJob(r: Race) {
    && Distinct(r.claimed)
    && (forall k :: 0 <= k < |r.claimed| ==>
          0 <= r.claimed[k] < |r.jobs| && r.jobs[r.claimed[k]].status != Queued)
  }

  lemma MoveKeepsOncePerJob(r: Race, m: Move)
    requires OncePerJob(r) && CanMove(r, m)
    ensures OncePerJob(Moved(r, m))
  {
    if m.Elsewhere? { QueueRefinement.EditKeepsStatuses(r.jobs, m.edit); }
  }

  /**
    Claim exactly once: whatever the interleaving of claimers, edits and other commits, no id
    is handed out twice, and a handed-out job never becomes claimable again.
   */
  lemma {:induction false} NoJobIsClaimedTwice(r: Race, moves: seq<Move>)
    requires OncePerJob(r) && Play(r, moves).Some?
    ensures var t := Play(r, moves).value; OncePerJob(t) && r.claimed <= t.claimed
    decreases |moves|
  {
    if moves != [] {
      MoveKeepsOncePerJob(r, moves[0]);
      NoJobIsClaimedTwice(Moved(r, moves[0]), moves[1..]);
    }
  }

  /** Run back to back, as under the lock, the pair claims the minimum of the immediate queue. */
  lemma AdjacentPairClaimsTheHead(r: Race, c: int)
    requires c !in r.selected && Queue(r.jobs, Immediate) != []
    ensures CanMove(Moved(r, Select(c)), Update(c))
    ensures var t := Moved(Moved(r, Select(c)), Update(c));
            && t.claimed == r.claimed + [Queue(r.jobs, Immediate)[0]]
            && IsQueued(r.jobs, Immediate, Queue(r.jobs, Immediate)[0])
            && (forall id :: IsQueued(r.jobs, Immediate, id) && id != Queue(r.jobs, Immediate)[0] ==>
                  Before(r.jobs, Queue(r.jobs, Immediate)[0], id))
            && Abs(t.jobs) == Queues(Queue(r.jobs, Immediate)[1..], Queue(r.jobs, Nightly))
  {
    QueueSpec(r.jobs, Immediate);
    QueueSpec(r.jobs, Nightly);
    var q := Queue(r.jobs, Immediate);
    assert q[0] in q;
    assert q[0] !in q[1..] && q == [q[0]] + q[1..];
    QueueRefinement.StatusChangeRemoves(r.jobs, q[0], Claimed);
  }

  // ---------------------------------------------------------------- what the lock adds

  /** Where a job stands: in one of the queues, or out of both for good. */
  datatype Place = InQueue(ty: ScheduleType) | Out

  function PlaceOf(jobs: Table, id: int): Place {
    if 0 <= id < |jobs| && jobs[id].status == Queued then InQueue(jobs[id].schedule) else Out
  }

  /** What one move does to a queued job, read off the move alone. */
  function PlaceAfter(r: Race, m: Move, id: int, place: Place): Place {
    match m
    case Elsewhere(e) =>
      if place.Out? then place
      else if e.Promote? then InQueue(Immediate)
      else if e.Enroll? && e.id == id then InQueue(Nightly)
      else if e.Unenroll? && e.id == id then InQueue(Immediate)
      else place
    case Update(c) => if c in r.selected && r.selected[c] == id then Out else place
    case Leave(j, _) => if j == id then Out else place
    case Select(_) => place
  }

  /** Fold of PlaceAfter: the last enrol, unenrol or promotion decides, unless the job left. */
  function PlaceThrough(r: Race, moves: seq<Move>, id: int, place: Place): Place
    decreases |moves|
  {
    if moves == [] || !CanMove(r, moves[0]) then place
    else PlaceThrough(Moved(r, moves[0]), moves[1..], id, PlaceAfter(r, moves[0], id, place))
  }

  lemma EditPlaces(jobs: Table, e: Edit, id: int)
    requires Names(jobs, e) && 0 <= id < |jobs|
    ensures id < |ApplyEdit(jobs, e)|
    ensures PlaceOf(ApplyEdit(jobs, e), id) ==
            var place := PlaceOf(jobs, id);
            if place.Out? then place
            else if e.Promote? then InQueue(Immediate)
            else if e.Enroll? && e.id == id then InQueue(Nightly)
            else if e.Unenroll? && e.id == id then InQueue(Immediate)
            else place
  {
    var t := ApplyEdit(jobs, e);
    QueueRefinement.EditKeepsStatuses(jobs, e);
    QueueRefinement.EditSimulates(jobs, e);
    QueueSpec(jobs, Immediate);
    QueueSpec(jobs, Nightly);
    QueueSpec(t, Immediate);
    QueueSpec(t, Nightly);
    assert IsQueued(t, Immediate, id) <==> id in Abs(t).immediate;
    assert IsQueued(t, Nightly, id) <==> id in Abs(t).nightly;
  }

  lemma MovePlaces(r: Race, m: Move, id: int)
    requires CanMove(r, m) && 0 <= id < |r.jobs|
    ensures id < |Moved(r, m).jobs|
    ensures PlaceOf(Moved(r, m).jobs, id) == PlaceAfter(r, m, id, PlaceOf(r.jobs, id))
  {
    if m.Elsewhere? { EditPlaces(r.jobs, m.edit, id); }
  }

  lemma {:induction false} PlayPlaces(r: Race, moves: seq<Move>, id: int)
    requires Play(r, moves).Some? && 0 <= id < |r.jobs|
    ensures id < |Play(r, moves).value.jobs|
    ensures PlaceOf(Play(r, moves).value.jobs, id) == PlaceThrough(r, moves, id, PlaceOf(r.jobs, id))
    decreases |moves|
  {
    if moves != [] {
      MovePlaces(r, moves[0], id);
      PlayPlaces(Moved(r, moves[0]), moves[1..], id);
    }
  }

  /** None of the moves is one of claimer c. */
  predicate NotBy(c: int, moves: seq<Move>) {
    forall k :: 0 <= k < |moves| ==> moves[k] != Select(c) && moves[k] != Update(c)
  }

  lemma {:induction false} SelectionStays(r: Race, moves: seq<Move>, c: int)
    requires Play(r, moves).Some? && NotBy(c, moves) && c in r.selected
    ensures c in Play(r, moves).value.selected && Play(r, moves).value.selected[c] == r.selected[c]
    decreases |moves|
  {
    if moves != [] {
      SelectionStays(Moved(r, moves[0]), moves[1..], c);
    }
  }

  /** The claimer takes a job, and it is a nightly one. */
  predicate ClaimsNightly(r: Race, c: int)
    requires CanMove(r, Update(c))
  {
    |Moved(r, Update(c)).claimed| > |r.claimed| && IsQueued(r.jobs, Nightly, r.selected[c])
  }

  /**
    Select, any moves of others, update: the claim takes the selected job exactly when it is
    still queued, and takes it out of the nightly set exactly when the last enrolment, removal
    or promotion in between left it there.  Without the write lock this does happen.
   */
  lemma UnlockedClaim(r: Race, c: int, moves: seq<Move>)
    requires CanMove(r, Select(c)) && NotBy(c, moves) && Play(Moved(r, Select(c)), moves).Some?
    ensures var id := Queue(r.jobs, Immediate)[0];
            var mid := Moved(r, Select(c));
            var t := Play(mid, moves).value;
            var place := PlaceThrough(mid, moves, id, InQueue(Immediate));
            && CanMove(t, Update(c))
            && Moved(t, Update(c)).claimed == (if place.InQueue? then t.claimed + [id] else t.claimed)
            && (ClaimsNightly(t, c) <==> place == InQueue(Nightly))
  {
    var mid := Moved(r, Select(c));
    QueueListsRows(r.jobs, Immediate);
    SelectionStays(mid, moves, c);
    PlayPlaces(mid, moves, Queue(r.jobs, Immediate)[0]);
  }

  /** Between two adjacent statements nothing can come, so the lock rules a nightly claim out. */
  lemma LockedClaimIsImmediate(r: Race, c: int)
    requires CanMove(r, Select(c))
    ensures CanMove(Moved(r, Select(c)), Update(c)) && !ClaimsNightly(Moved(r, Select(c)), c)
  {
    UnlockedClaim(r, c, []);
  }

  /** The failing family on any queue: the head is enrolled in between, and claimed as nightly. */
  lemma EnrolledHeadIsClaimed(r: Race, c: int)
    requires CanMove(r, Select(c))
    ensures var id := Queue(r.jobs, Immediate)[0];
            var moves := [Elsewhere(Enroll(id))];
            && Play(Moved(r, Select(c)), moves).Some?
            && CanMove(Play(Moved(r, Select(c)), moves).value, Update(c))
            && ClaimsNightly(Play(Moved(r, Select(c)), moves).value, c)
  {
    var id := Queue(r.jobs, Immediate)[0];
    var mid, move := Moved(r, Select(c)), Elsewhere(Enroll(id));
    QueueListsRows(r.jobs, Immediate);
    assert [move][1..] == [];
    assert Play(mid, [move]) == Play(Moved(mid, move), []);
    assert PlaceThrough(mid, [move], id, InQueue(Immediate))
        == PlaceThrough(Moved(mid, move), [], id, InQueue(Nightly));
    UnlockedClaim(r, c, [move]);
  }
}
