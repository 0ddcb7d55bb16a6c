/**
  The queues seen through whole runs of the protocol: what each step does to the two
  sequences, and that one undisturbed pump starts exactly the initial immediate queue, in
  order (pump_once in app/scheduler/worker.py).
 */
module PumpDrain {
  import opened Wrappers
  import opened JobQueue
  import opened Protocol
  import opened Ownership
  import Lifecycle
  import Recovery

  // ---------------------------------------------------------------- queues along a run

  /** What a protocol step does to the two sequences of queued ids. */
  function QueuesAfter(s: State, a: Action): Queues
    requires Enabled(s, a)
  {
    var q := Abs(s.jobs);
    match a
    case QueueEdit(e) =>
      (match AbsEdit(q, |s.jobs|, e)
       case Ok(q') => q'
       case Err(_) => q)
    case Claim(_) => if q.immediate == [] then q else q.(immediate := q.immediate[1..])
    case CancelCommit(c) =>
      Queues(Without(q.immediate, s.cancels[c].job), Without(q.nightly, s.cancels[c].job))
    case _ => q
  }

  lemma ClaimPops(jobs: Table)
    requires Queue(jobs, Immediate) != []
    ensures var q := Queue(jobs, Immediate);
            IsQueued(jobs, Immediate, q[0])
            && Abs(SetStatus(jobs, q[0], Claimed)) == Queues(q[1..], Queue(jobs, Nightly))
  {
    QueueSpec(jobs, Immediate);
    QueueSpec(jobs, Nightly);
    var q := Queue(jobs, Immediate);
    assert q[0] in q;
    QueueRefinement.StatusChangeRemoves(jobs, q[0], Claimed);
    assert q[0] !in q[1..] && q == [q[0]] + q[1..];
  }

  /** Every protocol step does to the queues exactly what QueuesAfter says. */
  lemma StepSimulatesQueues(s: State, a: Action)
    requires Inv(s) && Enabled(s, a)
    ensures Abs(Next(s, a).jobs) == QueuesAfter(s, a)
  {
    if a.QueueEdit? {
      QueueRefinement.EditSimulates(s.jobs, a.edit);
    } else if a.Claim? {
      if Queue(s.jobs, Immediate) != [] { ClaimPops(s.jobs); }
    } else if a.CancelCommit? {
      QueueRefinement.StatusChangeRemoves(s.jobs, s.cancels[a.c].job, Cancelled);
    } else if a.Recover? {
      Recovery.RecoveredQueues(s);
    } else {
      OwnerStepsKeepQueues(s, a);
    }
  }

  lemma OwnerStepsKeepQueues(s: State, a: Action)
    requires Inv(s) && Enabled(s, a)
    requires !a.QueueEdit? && !a.Claim? && !a.CancelCommit? && !a.Recover?
    ensures Abs(Next(s, a).jobs) == Abs(s.jobs)
  {
    if a.Abandon? {
      assert PumpOk(s, s.pumps[a.p].phase);
      QueueRefinement.OutsideTheQueue(s.jobs, s.pumps[a.p].phase.job, Failed);
    } else if a.Begin? {
      QueueRefinement.OutsideTheQueue(s.jobs, s.workers[a.w].job, Running);
    } else if a.Finish? {
      QueueRefinement.OutsideTheQueue(s.jobs, s.workers[a.w].job, Done);
      QueueRefinement.OutsideTheQueue(s.jobs, s.workers[a.w].job, Failed);
    } else if a.Finalize? {
      QueueRefinement.OutsideTheQueue(s.jobs, s.workers[a.w].job, Failed);
    }
  }

  lemma StepKeepsPositions(s: State, a: Action)
    requires Inv(s) && Enabled(s, a) && PositionsOk(s.jobs)
    ensures PositionsOk(Next(s, a).jobs)
  {
    if a.QueueEdit? {
      QueueRefinement.EditKeepsPositions(s.jobs, a.edit);
    } else if a.Recover? {
      var failed := FailInFlight(s.jobs);
      assert forall ty, i :: IsQueued(failed, ty, i) ==> IsQueued(s.jobs, ty, i) && failed[i] == s.jobs[i];
      QueueRefinement.EditKeepsPositions(failed, Compact);
      assert ApplyEdit(failed, Compact) == CompactPositions(failed);
    } else {
      var t := Next(s, a);
      StatusStepsKeepPlaces(s, a);
      forall ty, i | IsQueued(t.jobs, ty, i) ensures IsQueued(s.jobs, ty, i) && t.jobs[i] == s.jobs[i] {
      }
    }
  }

  lemma StatusStepsKeepPlaces(s: State, a: Action)
    requires Inv(s) && Enabled(s, a) && !a.QueueEdit? && !a.Recover?
    ensures var t := Next(s, a);
            && |t.jobs| == |s.jobs|
            && forall i :: 0 <= i < |s.jobs| && t.jobs[i].status == Queued ==> t.jobs[i] == s.jobs[i]
  {
    if Lifecycle.WritesJobs(a) {
      ClaimedHeadExists(s.jobs);
    } else {
      Lifecycle.OthersKeepJobs(s, a);
    }
  }

  lemma {:induction false} ExecKeepsPositions(s: State, trace: seq<Action>)
    requires Inv(s) && PositionsOk(s.jobs) && Exec(s, trace).Some?
    ensures PositionsOk(Exec(s, trace).value.jobs)
    decreases |trace|
  {
    if trace != [] {
      StepKeepsPositions(s, trace[0]);
      StepKeepsInv(s, trace[0]);
      ExecKeepsPositions(Next(s, trace[0]), trace[1..]);
    }
  }

  /** In every reachable state queued positions are unique per type and at least 1. */
  lemma PositionsAlwaysOk(s: State)
    requires Reachable(s)
    ensures PositionsOk(s.jobs)
  {
    var trace :| Exec(INITIAL, trace) == Some(s);
    ExecKeepsPositions(INITIAL, trace);
  }

  // ---------------------------------------------------------------- draining

  /**
    Nobody else edits the immediate queue and nothing of pump p fails.  Workers of any pump,
    compactions, cancels of jobs that left the queue and other pumps' bookkeeping interleave
    freely.
   */
  predicate Undisturbed(s: State, p: int, a: Action)
    requires Enabled(s, a)
  {
    match a
    case QueueEdit(e) => e.Compact?
    case CancelCommit(c) => s.jobs[s.cancels[c].job].status != Queued
    case Claim(q) => q == p
    case ClaimFails(q) => q != p
    case CreateRunFails(q) => q != p
    case AppCrash => false
    case Recover => false
    case _ => true
  }

  predicate AllUndisturbed(s: State, p: int, trace: seq<Action>)
    decreases |trace|
  {
    trace == [] ||
    (Enabled(s, trace[0]) && Undisturbed(s, p, trace[0]) && AllUndisturbed(Next(s, trace[0]), p, trace[1..]))
  }

  /** The jobs of the runs the pump has started, in order. */
  function StartedJobs(runs: seq<Run>, started: seq<int>): seq<int> {
    seq(|started|, k requires 0 <= k < |started| =>
      if 0 <= started[k] < |runs| then runs[started[k]].job else -1)
  }

  /** Claimed but not yet handed to a thread. */
  function Pending(phase: PumpPhase): seq<int> {
    var job := PumpJob(phase);
    if job.Some? then [job.value] else []
  }

  /** Started, then pending, then still queued: always the initial queue. */
  ghost predicate Draining(s: State, p: int, initial: Queues) {
    && HasPump(s, p)
    && (forall k :: 0 <= k < |s.pumps[p].started| ==> 0 <= s.pumps[p].started[k] < |s.runs|)
    && StartedJobs(s.runs, s.pumps[p].started) + Pending(s.pumps[p].phase) + Queue(s.jobs, Immediate)
       == initial.immediate
    && Queue(s.jobs, Nightly) == initial.nightly
    && !s.pumps[p].phase.Abandoning? && !s.pumps[p].phase.AbandonLoaded?
    && (s.pumps[p].phase.Stopped? ==> Queue(s.jobs, Immediate) == [])
  }

  lemma UndisturbedQueues(s: State, p: int, a: Action)
    requires Inv(s) && Enabled(s, a) && Undisturbed(s, p, a) && !a.Claim?
    ensures Abs(Next(s, a).jobs) == Abs(s.jobs)
  {
    StepSimulatesQueues(s, a);
    QueueSpec(s.jobs, Immediate);
    QueueSpec(s.jobs, Nightly);
  }

  lemma RunJobsStay(s: State, a: Action)
    requires Inv(s) && Enabled(s, a)
    ensures |s.runs| <= |Next(s, a).runs|
    ensures forall r :: 0 <= r < |s.runs| ==> Next(s, a).runs[r].job == s.runs[r].job
  {
    forall r | 0 <= r < |s.runs| ensures |s.runs| <= |Next(s, a).runs| && Next(s, a).runs[r].job == s.runs[r].job {
      Lifecycle.StepRun(s, a, r);
    }
    Lifecycle.NewRowsAreOpen(s, a);
  }

  /** The pump's own steps, apart from the claim. */
  lemma PumpMovesKeepDraining(s: State, p: int, a: Action, initial: Queues)
    requires Inv(s) && Enabled(s, a) && Draining(s, p, initial)
    requires a == CreateRun(p) || a == Spawn(p)
    ensures Draining(Next(s, a), p, initial)
  {
    UndisturbedQueues(s, p, a);
    var t := Next(s, a);
    assert PumpOk(s, s.pumps[p].phase);
    var before := StartedJobs(s.runs, s.pumps[p].started);
    if a.Spawn? {
      assert StartedJobs(t.runs, t.pumps[p].started) == before + Pending(s.pumps[p].phase);
    } else {
      assert StartedJobs(t.runs, t.pumps[p].started) == before;
    }
  }

  lemma ClaimKeepsDraining(s: State, p: int, initial: Queues)
    requires Inv(s) && Enabled(s, Claim(p)) && Draining(s, p, initial)
    ensures Draining(Next(s, Claim(p)), p, initial)
  {
    StepSimulatesQueues(s, Claim(p));
    var q := Queue(s.jobs, Immediate);
    var before := StartedJobs(s.runs, s.pumps[p].started);
    if q != [] {
      assert before + [] + q == before + [q[0]] + q[1..];
    }
  }

  lemma OthersKeepDraining(s: State, p: int, a: Action, initial: Queues)
    requires Inv(s) && Enabled(s, a) && Undisturbed(s, p, a) && Draining(s, p, initial)
    requires a != Claim(p) && a != CreateRun(p) && a != Spawn(p)
    ensures Draining(Next(s, a), p, initial)
  {
    UndisturbedQueues(s, p, a);
    RunJobsStay(s, a);
    var t := Next(s, a);
    assert t.pumps[p].started == s.pumps[p].started;
    assert StartedJobs(t.runs, t.pumps[p].started) == StartedJobs(s.runs, s.pumps[p].started);
  }

  lemma StepKeepsDraining(s: State, p: int, a: Action, initial: Queues)
    requires Inv(s) && Enabled(s, a) && Undisturbed(s, p, a) && Draining(s, p, initial)
    ensures Draining(Next(s, a), p, initial)
  {
    if a == Claim(p) {
      ClaimKeepsDraining(s, p, initial);
    } else if a == CreateRun(p) || a == Spawn(p) {
      PumpMovesKeepDraining(s, p, a, initial);
    } else {
      OthersKeepDraining(s, p, a, initial);
    }
  }

  lemma {:induction false} ExecKeepsDraining(s: State, p: int, trace: seq<Action>, initial: Queues)
    requires Inv(s) && Draining(s, p, initial) && AllUndisturbed(s, p, trace)
    ensures Exec(s, trace).Some? && Draining(Exec(s, trace).value, p, initial)
    decreases |trace|
  {
    if trace != [] {
      var a := trace[0];
      StepKeepsDraining(s, p, a, initial);
      StepKeepsInv(s, a);
      ExecKeepsDraining(Next(s, a), p, trace[1..], initial);
    }
  }

  /**
    Pump drain: from the start of the pump on, started + pending + queued is the initial
    immediate queue in order, nightly is untouched, and when the pump stops it has started a
    run for exactly the initial immediate queue.
   */
  lemma PumpDrainsInOrder(s: State, p: int, trace: seq<Action>)
    requires Reachable(s) && HasPump(s, p) && s.pumps[p].phase.Waiting? && s.pumps[p].started == []
    requires AllUndisturbed(s, p, trace)
    ensures Exec(s, trace).Some?
    ensures var t := Exec(s, trace).value;
            && HasPump(t, p)
            && StartedJobs(t.runs, t.pumps[p].started) + Pending(t.pumps[p].phase) + Queue(t.jobs, Immediate)
               == Queue(s.jobs, Immediate)
            && Queue(t.jobs, Nightly) == Queue(s.jobs, Nightly)
            && (t.pumps[p].phase.Stopped? ==>
                  StartedJobs(t.runs, t.pumps[p].started) == Queue(s.jobs, Immediate))
  {
    ReachableInv(s);
    assert Draining(s, p, Abs(s.jobs));
    ExecKeepsDraining(s, p, trace, Abs(s.jobs));
    var t := Exec(s, trace).value;
    var jobs := StartedJobs(t.runs, t.pumps[p].started);
    assert t.pumps[p].phase.Stopped? ==> jobs + [] + [] == jobs;
  }

  /** The loop measure: a claim that succeeds shortens the queue, and nothing undisturbed lengthens it. */
  lemma QueueOnlyShrinks(s: State, p: int, a: Action)
    requires Inv(s) && Enabled(s, a) && Undisturbed(s, p, a)
    ensures var n, n' := |Queue(s.jobs, Immediate)|, |Queue(Next(s, a).jobs, Immediate)|;
            if a.Claim? && n > 0 then n' == n - 1 else n' == n
  {
    if a.Claim? {
      StepSimulatesQueues(s, a);
    } else {
      UndisturbedQueues(s, p, a);
    }
  }

  /** How often pump p asks for a job along a run. */
  function Claims(p: int, trace: seq<Action>): nat {
    if trace == [] then 0 else (if trace[0] == Claim(p) then 1 else 0) + Claims(p, trace[1..])
  }

  /** What is left for the pump to do: the queue, and one more claim to find it empty. */
  function ClaimsLeft(s: State, p: int): nat
    requires HasPump(s, p)
  {
    if s.pumps[p].phase.Stopped? then 0 else |Queue(s.jobs, Immediate)| + 1
  }

  lemma StepUsesClaims(s: State, p: int, a: Action, initial: Queues)
    requires Inv(s) && Enabled(s, a) && Undisturbed(s, p, a) && Draining(s, p, initial)
    requires HasPump(Next(s, a), p)
    ensures ClaimsLeft(Next(s, a), p) + (if a == Claim(p) then 1 else 0) == ClaimsLeft(s, p)
  {
    QueueOnlyShrinks(s, p, a);
  }

  lemma {:induction false} ExecUsesClaims(s: State, p: int, trace: seq<Action>, initial: Queues)
    requires Inv(s) && Draining(s, p, initial) && AllUndisturbed(s, p, trace)
    ensures Exec(s, trace).Some? && HasPump(Exec(s, trace).value, p)
    ensures ClaimsLeft(Exec(s, trace).value, p) + Claims(p, trace) == ClaimsLeft(s, p)
    decreases |trace|
  {
    if trace != [] {
      StepKeepsDraining(s, p, trace[0], initial);
      StepUsesClaims(s, p, trace[0], initial);
      StepKeepsInv(s, trace[0]);
      ExecUsesClaims(Next(s, trace[0]), p, trace[1..], initial);
    }
  }

  /**
    Termination: an undisturbed pump claims at most |queue| + 1 times, and it has stopped exactly
    when it has claimed that often.
   */
  lemma PumpStopsAfterItsClaims(s: State, p: int, trace: seq<Action>)
    requires Reachable(s) && HasPump(s, p) && s.pumps[p].phase.Waiting? && s.pumps[p].started == []
    requires AllUndisturbed(s, p, trace)
    ensures Claims(p, trace) <= |Queue(s.jobs, Immediate)| + 1
    ensures Exec(s, trace).Some? && HasPump(Exec(s, trace).value, p)
    ensures Exec(s, trace).value.pumps[p].phase.Stopped? <==> Claims(p, trace) == |Queue(s.jobs, Immediate)| + 1
  {
    ReachableInv(s);
    assert Draining(s, p, Abs(s.jobs)) by {
      assert [] + [] + Queue(s.jobs, Immediate) == Queue(s.jobs, Immediate);
    }
    ExecUsesClaims(s, p, trace, Abs(s.jobs));
  }
}
