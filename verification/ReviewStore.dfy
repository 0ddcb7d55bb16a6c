/**
  The commits of app/scheduler/worker.py, app/services/review_service.py and
  app/scheduler/recovery.py as methods that overwrite job and run rows in place.  Each is proved
  to leave the rows the protocol's own steps leave, compaction included, and to give its caller
  what the worker relies on.
 */
module ReviewStore {
  import opened Wrappers
  import opened JobQueue
  import opened Protocol
  import JobTable
  import QueueRefinement

  // ---------------------------------------------------------------- row listings

  /** select ReviewRun where status == running, among the first n rows. */
  function RunningList(runs: seq<Run>, n: nat): (ids: seq<int>)
    requires n <= |runs|
    ensures forall k :: 0 <= k < |ids| ==> 0 <= ids[k] < n && runs[ids[k]].status == RunRunning
    ensures forall r :: 0 <= r < n && runs[r].status == RunRunning ==> r in ids
    ensures Distinct(ids)
  {
    if n == 0 then []
    else
      var ids := RunningList(runs, n - 1);
      if runs[n - 1].status == RunRunning then ids + [n - 1] else ids
  }

  /** select ScheduledJob where status in (claimed, running), among the first n rows. */
  function InFlightList(jobs: Table, n: nat): (ids: seq<int>)
    requires n <= |jobs|
    ensures forall k :: 0 <= k < |ids| ==> 0 <= ids[k] < n && InFlight(jobs[ids[k]].status)
    ensures forall j :: 0 <= j < n && InFlight(jobs[j].status) ==> j in ids
    ensures Distinct(ids)
  {
    if n == 0 then []
    else
      var ids := InFlightList(jobs, n - 1);
      if InFlight(jobs[n - 1].status) then ids + [n - 1] else ids
  }

  lemma CountDistinct(ids: seq<int>, members: set<int>)
    requires Distinct(ids) && forall x :: x in ids <==> x in members
    ensures |ids| == |members|
  {
    JobTable.DistinctCount(ids);
    assert (set x | x in ids) == members;
  }

  /** Some of the listed runs belongs to the job. */
  predicate Listed(runs: seq<Run>, ids: seq<int>, job: int) {
    exists k :: 0 <= k < |ids| && 0 <= ids[k] < |runs| && runs[ids[k]].job == job
  }

  lemma ListedIffRunning(runs: seq<Run>, job: int)
    ensures Listed(runs, RunningList(runs, |runs|), job) <==> HasRunningRun(runs, job)
  {
    var ids := RunningList(runs, |runs|);
    if Listed(runs, ids, job) {
      var k :| 0 <= k < |ids| && 0 <= ids[k] < |runs| && runs[ids[k]].job == job;
      assert runs[ids[k]] == Run(job, RunRunning);
    }
    if HasRunningRun(runs, job) {
      var r :| 0 <= r < |runs| && runs[r] == Run(job, RunRunning);
      assert r in ids;
      var k :| 0 <= k < |ids| && ids[k] == r;
    }
  }

  // ---------------------------------------------------------------- the protocol around a call

  /** The protocol state has these rows. */
  predicate Shows(s: State, jobs: Table, runs: seq<Run>) {
    s.up && s.jobs == jobs && s.runs == runs
  }

  function Compacted(s: State): State
    requires s.up
  {
    Next(s, QueueEdit(Compact))
  }

  predicate AtCreateRun(s: State, p: int, job: int) {
    Enabled(s, Action.CreateRun(p)) && s.pumps[p].phase.job == job
  }

  predicate AtAbandon(s: State, p: int, job: int) {
    Enabled(s, AbandonRead(p)) && s.pumps[p].phase.job == job
  }

  /** Read and commit with nothing in between; the service compacts only after a write. */
  function AfterAbandon(s: State, p: int, job: int): State
    requires AtAbandon(s, p, job)
  {
    var t := Next(Next(s, AbandonRead(p)), Abandon(p));
    if s.jobs[job].status == Claimed then Compacted(t) else t
  }

  predicate AtCancel(s: State, c: int, job: int) {
    Enabled(s, CancelReadJob(c, job)) && InFlight(s.jobs[job].status)
  }

  function AfterCancel(s: State, c: int, job: int): State
    requires AtCancel(s, c, job)
  {
    Compacted(Next(Next(Next(s, CancelReadJob(c, job)), CancelReadRun(c)), CancelCommit(c)))
  }

  predicate AtFinish(s: State, run: int, job: int, outcome: Outcome) {
    Enabled(s, Finish(run, outcome)) && s.workers[run].job == job
  }

  predicate AtFinalize(s: State, run: int, job: int) {
    Enabled(s, FinalizeReadRun(run)) && s.workers[run].job == job
  }

  /** The crash handler has read both rows. */
  function CrashRead(s: State, run: int, job: int): (t: State)
    requires AtFinalize(s, run, job)
    ensures Shows(t, s.jobs, s.runs) && HasWorker(t, run)
    ensures t.workers[run] == s.workers[run].(phase := CrashLoaded(s.runs[run].status, s.jobs[job].status))
  {
    Next(Next(s, FinalizeReadRun(run)), FinalizeReadJob(run))
  }

  function AfterFinalize(s: State, run: int, job: int): State
    requires AtFinalize(s, run, job)
  {
    Compacted(FinalizeCrashed(CrashRead(s, run, job), run))
  }

  /** A starting process finds these rows. */
  predicate AtRecovery(s: State, jobs: Table, runs: seq<Run>) {
    !s.up && s.jobs == jobs && s.runs == runs
  }

  // ---------------------------------------------------------------- what a caller may rely on

  predicate OtherJobsKept(before: Table, after: Table, job: int) {
    |after| == |before| && forall j :: 0 <= j < |before| && j != job ==> after[j].status == before[j].status
  }

  predicate OtherRunsKept(before: seq<Run>, after: seq<Run>, run: int) {
    && |after| == |before|
    && (forall r :: 0 <= r < |before| ==> after[r].job == before[r].job)
    && (forall r :: 0 <= r < |before| && r != run ==> after[r] == before[r])
  }

  /** One job out of the queue changes status, then the queue is compacted. */
  lemma ChangeAndCompact(jobs: Table, job: int, status: JobStatus)
    requires 0 <= job < |jobs| && status != Queued
    ensures var t := CompactPositions(SetStatus(jobs, job, status));
            && OtherJobsKept(jobs, t, job) && t[job].status == status && Dense(t)
            && (jobs[job].status != Queued ==> Abs(t) == Abs(jobs))
  {
    CompactKeepsStatuses(SetStatus(jobs, job, status));
    if jobs[job].status != Queued { QueueRefinement.OutsideTheQueue(jobs, job, status); }
  }

  lemma CompactKeepsStatuses(jobs: Table)
    ensures var t := CompactPositions(jobs);
            && |t| == |jobs| && (forall j :: 0 <= j < |jobs| ==> t[j].status == jobs[j].status)
            && Dense(t) && Abs(t) == Abs(jobs)
  {
    QueueRefinement.CompactStutters(jobs);
    QueueRefinement.EditKeepsStatuses(jobs, Compact);
    assert ApplyEdit(jobs, Compact) == CompactPositions(jobs);
  }

  // ---------------------------------------------------------------- the steps, row by row

  lemma CancelSteps(s: State, c: int, job: int)
    requires AtCancel(s, c, job)
    ensures var run := LatestRunning(s.runs, job, |s.runs|);
            Shows(AfterCancel(s, c, job), CompactPositions(SetStatus(s.jobs, job, Cancelled)),
                  if run.Some? then SetRun(s.runs, run.value, RunError) else s.runs)
  {
  }

  lemma FinishSteps(s: State, run: int, job: int, outcome: Outcome)
    requires AtFinish(s, run, job, outcome)
    ensures var status := OutcomeStatus(outcome);
            Shows(Compacted(Next(s, Finish(run, outcome))),
                  CompactPositions(SetStatus(s.jobs, job, if status == RunSuccess then Done else Failed)),
                  SetRun(s.runs, run, status))
  {
  }

  lemma FinalizeSteps(s: State, run: int, job: int)
    requires AtFinalize(s, run, job)
    ensures Shows(AfterFinalize(s, run, job),
                  CompactPositions(if InFlight(s.jobs[job].status) then SetStatus(s.jobs, job, Failed) else s.jobs),
                  if s.runs[run].status == RunRunning then SetRun(s.runs, run, RunError) else s.runs)
    ensures Enabled(CrashRead(s, run, job), Finalize(run))
    ensures AfterFinalize(s, run, job) == Compacted(Next(CrashRead(s, run, job), Finalize(run)))
  {
  }

  /** The listed runs are the running ones, each once, and hit exactly the jobs with a running run. */
  lemma OrphansAreRunning(runs: seq<Run>)
    ensures var ids := RunningList(runs, |runs|);
            && |ids| == |RunningRuns(runs)|
            && (forall r :: 0 <= r < |runs| ==> (r in ids <==> runs[r].status == RunRunning))
            && (forall j :: Listed(runs, ids, j) <==> HasRunningRun(runs, j))
  {
    var ids := RunningList(runs, |runs|);
    forall j ensures Listed(runs, ids, j) <==> HasRunningRun(runs, j) { ListedIffRunning(runs, j); }
    CountDistinct(ids, RunningRuns(runs));
  }

  class Store {
    var jobs: Table
    var runs: seq<Run>

    /**
      The run row of a freshly claimed job (_claim_and_create_run): the protocol's step, and the
      run a cancel of this job would now stop.
     */
    method CreateRun(job: int) returns (run: int)
      modifies this`runs
      ensures forall s, p :: Shows(s, jobs, old(runs)) && AtCreateRun(s, p, job) ==>
                Shows(Next(s, Action.CreateRun(p)), jobs, runs)
                && Next(s, Action.CreateRun(p)).pumps[p].phase == CreatedRun(job, run)
      ensures old(runs) <= runs && |runs| == |old(runs)| + 1
      ensures LatestRunning(runs, job, |runs|) == Some(run)
    {
      run := |runs|;
      runs := runs + [Run(job, RunRunning)];
    }

    /** Give up a claim whose run row could not be created, unless a cancel got there first. */
    method AbandonClaim(job: int)
      requires 0 <= job < |jobs|
      modifies this`jobs
      ensures forall s, p :: Shows(s, old(jobs), runs) && AtAbandon(s, p, job) ==>
                Shows(AfterAbandon(s, p, job), jobs, runs)
      ensures old(jobs)[job].status != Claimed ==> jobs == old(jobs)
      ensures OtherJobsKept(old(jobs), jobs, job)
      ensures old(jobs)[job].status == Claimed ==>
                jobs[job].status == Failed && Dense(jobs) && Abs(jobs) == Abs(old(jobs))
    {
      if jobs[job].status == Claimed {
        ChangeAndCompact(jobs, job, Failed);
        jobs := jobs[job := jobs[job].(status := Failed)];
        jobs := CompactPositions(jobs);
      }
    }

    /**
      cancel_inflight, when nothing else commits in between: the in-flight job ends cancelled,
      and the run it stops is running exactly when the job has a running run.
     */
    method CancelInflight(job: int) returns (stopped: Option<int>)
      requires 0 <= job < |jobs| && InFlight(jobs[job].status)
      modifies this
      ensures forall s, c :: Shows(s, old(jobs), old(runs)) && AtCancel(s, c, job) ==>
                Shows(AfterCancel(s, c, job), jobs, runs)
      ensures stopped.Some? <==> HasRunningRun(old(runs), job)
      ensures stopped.Some? ==>
                && 0 <= stopped.value < |old(runs)| == |runs|
                && old(runs)[stopped.value] == Run(job, RunRunning) && runs[stopped.value] == Run(job, RunError)
                && OtherRunsKept(old(runs), runs, stopped.value)
      ensures stopped.None? ==> runs == old(runs)
      ensures OtherJobsKept(old(jobs), jobs, job) && jobs[job].status == Cancelled
      ensures Dense(jobs) && Abs(jobs) == Abs(old(jobs))
    {
      ChangeAndCompact(jobs, job, Cancelled);
      stopped := LatestRunning(runs, job, |runs|);
      if stopped.Some? {
        runs := runs[stopped.value := runs[stopped.value].(status := RunError)];
      }
      jobs := jobs[job := jobs[job].(status := Cancelled)];
      jobs := CompactPositions(jobs);
      forall s, c | Shows(s, old(jobs), old(runs)) && AtCancel(s, c, job)
        ensures Shows(AfterCancel(s, c, job), jobs, runs)
      {
        CancelSteps(s, c, job);
      }
    }

    /** _apply_outcome: run and job end together, done exactly with a success. */
    method ApplyOutcome(run: int, job: int, outcome: Outcome)
      requires 0 <= run < |runs| && 0 <= job < |jobs|
      modifies this
      ensures forall s :: Shows(s, old(jobs), old(runs)) && AtFinish(s, run, job, outcome) ==>
                Shows(Compacted(Next(s, Finish(run, outcome))), jobs, runs)
      ensures OtherRunsKept(old(runs), runs, run) && OtherJobsKept(old(jobs), jobs, job)
      ensures runs[run].status == RunTimeout <==> outcome.timedOut
      ensures runs[run].status == RunSuccess <==> !outcome.timedOut && outcome.exitCode == 0
      ensures runs[run].status != RunRunning
      ensures jobs[job].status == if runs[run].status == RunSuccess then Done else Failed
      ensures Dense(jobs) && (old(jobs)[job].status != Queued ==> Abs(jobs) == Abs(old(jobs)))
    {
      ChangeAndCompact(jobs, job, Done);
      ChangeAndCompact(jobs, job, Failed);
      var status;
      if outcome.timedOut {
        status := RunTimeout;
      } else if outcome.exitCode == 0 {
        status := RunSuccess;
      } else {
        status := RunError;
      }
      runs := runs[run := runs[run].(status := status)];
      jobs := jobs[job := jobs[job].(status := if status == RunSuccess then Done else Failed)];
      jobs := CompactPositions(jobs);
      forall s | Shows(s, old(jobs), old(runs)) && AtFinish(s, run, job, outcome)
        ensures Shows(Compacted(Next(s, Finish(run, outcome))), jobs, runs)
      {
        FinishSteps(s, run, job, outcome);
      }
    }

    /**
      _finalize_crashed_run, when nothing else commits in between: nothing of this worker stays
      in flight, and a row that is already final keeps its status.
     */
    method FinalizeCrashedRun(run: int, job: int)
      requires 0 <= run < |runs| && 0 <= job < |jobs|
      modifies this
      ensures forall s :: Shows(s, old(jobs), old(runs)) && AtFinalize(s, run, job) ==>
                Shows(AfterFinalize(s, run, job), jobs, runs)
      ensures OtherRunsKept(old(runs), runs, run) && OtherJobsKept(old(jobs), jobs, job)
      ensures runs[run].status != RunRunning && !InFlight(jobs[job].status)
      ensures old(runs)[run].status != RunRunning ==> runs == old(runs)
      ensures !InFlight(old(jobs)[job].status) ==> jobs[job].status == old(jobs)[job].status
      ensures Dense(jobs) && Abs(jobs) == Abs(old(jobs))
    {
      ChangeAndCompact(jobs, job, Failed);
      CompactKeepsStatuses(jobs);
      if runs[run].status == RunRunning {
        runs := runs[run := runs[run].(status := RunError)];
      }
      if InFlight(jobs[job].status) {
        jobs := jobs[job := jobs[job].(status := Failed)];
      }
      jobs := CompactPositions(jobs);
      forall s | Shows(s, old(jobs), old(runs)) && AtFinalize(s, run, job)
        ensures Shows(AfterFinalize(s, run, job), jobs, runs)
      {
        FinalizeSteps(s, run, job);
      }
    }

    /**
      recover_orphans: end every running run and fail its job, then fail whatever is still in
      flight.  The result counts running runs plus in-flight jobs without a running run.
     */
    method RecoverOrphans() returns (fixed: nat)
      modifies this
      ensures fixed == RecoveredCount(old(jobs), old(runs))
      ensures runs == EndRunning(old(runs))
      ensures jobs == if fixed > 0 then CompactPositions(FailInFlight(old(jobs))) else old(jobs)
      ensures fixed == 0 ==> runs == old(runs)
      ensures forall s :: AtRecovery(s, old(jobs), old(runs)) ==> Shows(Next(s, Recover), jobs, runs)
    {
      fixed := EndOrphans();
      fixed := FailStuck(fixed, old(jobs), old(runs));
      if fixed == 0 {
        NothingToRecover(old(jobs), old(runs));
      }
    }

    /** The first loop of recover_orphans. */
    method EndOrphans() returns (ended: nat)
      modifies this
      ensures ended == |RunningRuns(old(runs))|
      ensures runs == EndRunning(old(runs))
      ensures |jobs| == |old(jobs)|
      ensures forall j :: 0 <= j < |jobs| ==>
                jobs[j] == if InFlight(old(jobs)[j].status) && HasRunningRun(old(runs), j)
                           then old(jobs)[j].(status := Failed) else old(jobs)[j]
    {
      var orphans := RunningList(runs, |runs|);
      OrphansAreRunning(runs);
      EndEach(orphans);
      ended := |orphans|;
    }

    method EndEach(orphans: seq<int>)
      requires forall k :: 0 <= k < |orphans| ==> 0 <= orphans[k] < |runs|
      modifies this
      ensures |runs| == |old(runs)| && |jobs| == |old(jobs)|
      ensures forall r :: 0 <= r < |runs| ==>
                runs[r] == if r in orphans then old(runs)[r].(status := RunError) else old(runs)[r]
      ensures forall j :: 0 <= j < |jobs| ==>
                jobs[j] == if InFlight(old(jobs)[j].status) && Listed(old(runs), orphans, j)
                           then old(jobs)[j].(status := Failed) else old(jobs)[j]
    {
      ghost var jobs0, runs0 := jobs, runs;
      for ended := 0 to |orphans|
        invariant |runs| == |runs0| && |jobs| == |jobs0|
        invariant forall r :: 0 <= r < |runs0| ==>
                    runs[r] == if r in orphans[..ended] then runs0[r].(status := RunError) else runs0[r]
        invariant forall j :: 0 <= j < |jobs0| ==>
                    jobs[j] == if InFlight(jobs0[j].status) && Listed(runs0, orphans[..ended], j)
                               then jobs0[j].(status := Failed) else jobs0[j]
      {
        var run := orphans[ended];
        ListedStep(runs0, orphans, ended);
        runs := runs[run := runs[run].(status := RunError)];
        var job := runs[run].job;
        if 0 <= job < |jobs| && InFlight(jobs[job].status) {
          jobs := jobs[job := jobs[job].(status := Failed)];
        }
      }
      assert orphans[..|orphans|] == orphans;
    }

    /** The second loop of recover_orphans and the final compaction. */
    method FailStuck(orphans: nat, ghost jobs0: Table, ghost runs0: seq<Run>) returns (fixed: nat)
      requires |jobs| == |jobs0| && orphans == |RunningRuns(runs0)|
      requires forall j :: 0 <= j < |jobs0| ==>
                 jobs[j] == if InFlight(jobs0[j].status) && HasRunningRun(runs0, j)
                            then jobs0[j].(status := Failed) else jobs0[j]
      modifies this`jobs
      ensures fixed == RecoveredCount(jobs0, runs0)
      ensures jobs == if fixed > 0 then CompactPositions(FailInFlight(jobs0)) else jobs0
    {
      var stuck := InFlightList(jobs, |jobs|);
      CountDistinct(stuck, StuckJobs(jobs0, runs0));
      ghost var jobs1 := jobs;
      fixed := orphans;
      for k := 0 to |stuck|
        invariant fixed == orphans + k
        invariant |jobs| == |jobs1|
        invariant forall j :: 0 <= j < |jobs1| ==>
                    jobs[j] == if j in stuck[..k] then jobs1[j].(status := Failed) else jobs1[j]
      {
        jobs := jobs[stuck[k] := jobs[stuck[k]].(status := Failed)];
        fixed := fixed + 1;
      }
      assert stuck[..|stuck|] == stuck;
      assert jobs == FailInFlight(jobs0);
      if fixed > 0 {
        jobs := CompactPositions(jobs);
      } else {
        NothingToRecover(jobs0, runs0);
      }
    }
  }

  lemma ListedStep(runs: seq<Run>, ids: seq<int>, k: nat)
    requires k < |ids| && 0 <= ids[k] < |runs|
    ensures forall j :: Listed(runs, ids[..k + 1], j) <==> Listed(runs, ids[..k], j) || runs[ids[k]].job == j
  {
    forall j ensures Listed(runs, ids[..k + 1], j) <==> Listed(runs, ids[..k], j) || runs[ids[k]].job == j {
      if Listed(runs, ids[..k], j) {
        var i :| 0 <= i < k && 0 <= ids[..k][i] < |runs| && runs[ids[..k][i]].job == j;
        assert ids[..k + 1][i] == ids[..k][i];
      }
      if runs[ids[k]].job == j { assert ids[..k + 1][k] == ids[k]; }
    }
  }

  /** A zero count means there was nothing in flight. */
  lemma NothingToRecover(jobs: Table, runs: seq<Run>)
    requires RecoveredCount(jobs, runs) == 0
    ensures FailInFlight(jobs) == jobs && EndRunning(runs) == runs
  {
    assert RunningRuns(runs) == {} && StuckJobs(jobs, runs) == {};
    forall r | 0 <= r < |runs| ensures runs[r].status != RunRunning {
      assert r !in RunningRuns(runs);
    }
    forall j | 0 <= j < |jobs| ensures !InFlight(jobs[j].status) {
      assert j !in StuckJobs(jobs, runs);
    }
  }
}
