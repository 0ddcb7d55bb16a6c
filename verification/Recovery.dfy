/**
  Crash recovery: kill the process in any reachable state, at any point of any thread, and run
  the startup recovery of app/scheduler/recovery.py.
 */
module Recovery {
  import opened JobQueue
  import opened Protocol
  import opened Ownership
  import Lifecycle
  import ReviewStore

  function Restart(s: State): State
    requires s.up
  {
    Next(Next(s, AppCrash), Recover)
  }

  /** Failing in-flight jobs does not disturb the queues. */
  lemma FailInFlightKeepsQueues(jobs: Table)
    ensures Abs(FailInFlight(jobs)) == Abs(jobs)
  {
    var failed := FailInFlight(jobs);
    QueueRefinement.QueueUntouched(jobs, failed, Immediate);
    QueueRefinement.QueueUntouched(jobs, failed, Nightly);
  }

  lemma CompactLeavesUnqueued(jobs: Table)
    ensures |CompactPositions(jobs)| == |jobs|
    ensures forall j :: 0 <= j < |jobs| && jobs[j].status != Queued ==> CompactPositions(jobs)[j] == jobs[j]
  {
    QueueListsRows(jobs, Immediate);
    var queue := Queue(jobs, Immediate);
    forall j | 0 <= j < |jobs| && jobs[j].status != Queued ensures CompactPositions(jobs)[j] == jobs[j] {
      assert j !in queue;
    }
  }

  /** Recovered rows: what is in flight ends, everything final is bit for bit what it was. */
  lemma RecoveredRows(s: State)
    ensures var t := RecoverOrphans(s);
            && |t.jobs| == |s.jobs| && |t.runs| == |s.runs|
            && (forall j :: 0 <= j < |s.jobs| ==> !InFlight(t.jobs[j].status))
            && (forall j :: 0 <= j < |s.jobs| && Terminal(s.jobs[j].status) ==> t.jobs[j] == s.jobs[j])
            && (forall j :: 0 <= j < |s.jobs| ==>
                  (t.jobs[j].status == Queued <==> s.jobs[j].status == Queued))
            && (forall r :: 0 <= r < |s.runs| ==> t.runs[r].status != RunRunning)
            && (forall r :: 0 <= r < |s.runs| && s.runs[r].status != RunRunning ==> t.runs[r] == s.runs[r])
  {
    RecoverStatuses(s);
    CompactLeavesUnqueued(FailInFlight(s.jobs));
  }

  lemma RecoveredQueues(s: State)
    ensures Abs(RecoverOrphans(s).jobs) == Abs(s.jobs)
  {
    FailInFlightKeepsQueues(s.jobs);
    QueueRefinement.CompactStutters(FailInFlight(s.jobs));
  }

  /**
    The whole law.  After a crash anywhere and one recovery nothing is in flight, final rows
    and both queues are untouched, a second recovery finds nothing, and the protocol's
    invariant holds again, so every theorem about reachable states does too.
   */
  lemma CrashRecovery(s: State)
    requires Reachable(s) && s.up
    ensures var t := Restart(s);
            && t.up && Reachable(t) && Inv(t)
            && t.pumps == [] && t.workers == map[] && t.cancels == map[]
            && (forall j :: 0 <= j < |t.jobs| ==> !InFlight(t.jobs[j].status))
            && (forall r :: 0 <= r < |t.runs| ==> t.runs[r].status != RunRunning)
            && |t.jobs| == |s.jobs| && |t.runs| == |s.runs|
            && (forall j :: 0 <= j < |s.jobs| && Terminal(s.jobs[j].status) ==> t.jobs[j] == s.jobs[j])
            && (forall r :: 0 <= r < |s.runs| && s.runs[r].status != RunRunning ==> t.runs[r] == s.runs[r])
            && Abs(t.jobs) == Abs(s.jobs)
            && RecoveredCount(t.jobs, t.runs) == 0
  {
    var down := Next(s, AppCrash);
    Lifecycle.ReachableStep(s, AppCrash);
    Lifecycle.ReachableStep(down, Recover);
    ReachableInv(Restart(s));
    RecoveredRows(down);
    RecoveredQueues(down);
    SecondRecoveryFindsNothing(down);
  }

  /** A second call right after the first returns 0 and writes nothing. */
  lemma SecondRecoveryFindsNothing(s: State)
    ensures var t := RecoverOrphans(s);
            RecoveredCount(t.jobs, t.runs) == 0 && RecoverOrphans(t) == t
  {
    var t := RecoverOrphans(s);
    RecoveredRows(s);
    assert RunningRuns(t.runs) == {};
    assert StuckJobs(t.jobs, t.runs) == {};
    ReviewStore.NothingToRecover(t.jobs, t.runs);
  }
}
