/**
  How the status of one job, and of its run, evolves: who may write it, what is final, and
  when "done" and "success" agree.  Includes the exact condition under which a cancelling
  request that read its rows earlier overwrites a finished job.
 */
module Lifecycle {
  import opened Wrappers
  import opened JobQueue
  import opened Protocol
  import opened Ownership

  // ---------------------------------------------------------------- one step, one job

  /** The status a step gives a job. */
  function StatusAfter(s: State, a: Action, j: int): JobStatus
    requires Enabled(s, a) && 0 <= j < |s.jobs|
  {
    var status := s.jobs[j].status;
    match a
    case Claim(_) =>
      if Queue(s.jobs, Immediate) != [] && Queue(s.jobs, Immediate)[0] == j then Claimed else status
    case CancelCommit(c) => if s.cancels[c].job == j then Cancelled else status
    case Abandon(p) => if s.pumps[p].phase.job == j && s.pumps[p].phase.seen == Claimed then Failed else status
    case Begin(w) => if s.workers[w].job == j then Running else status
    case Finish(w, outcome) =>
      if s.workers[w].job != j then status
      else if OutcomeStatus(outcome) == RunSuccess then Done else Failed
    case Finalize(w) => if s.workers[w].job == j && InFlight(s.workers[w].phase.job) then Failed else status
    case Recover => if InFlight(status) then Failed else status
    case _ => status
  }

  /** The steps whose commit writes a job row. */
  predicate WritesJobs(a: Action) {
    a.QueueEdit? || a.CancelCommit? || a.Claim? || a.Abandon? || a.Begin? || a.Finish? || a.Finalize? || a.Recover?
  }

  lemma OthersKeepJobs(s: State, a: Action)
    requires Enabled(s, a) && !WritesJobs(a)
    ensures Next(s, a).jobs == s.jobs
  {
  }

  lemma WriterStatus(s: State, a: Action, j: int)
    requires Inv(s) && Enabled(s, a) && 0 <= j < |s.jobs| && WritesJobs(a)
    ensures j < |Next(s, a).jobs| && Next(s, a).jobs[j].status == StatusAfter(s, a, j)
  {
    if a.QueueEdit? {
      QueueRefinement.EditKeepsStatuses(s.jobs, a.edit);
    } else if a.Recover? {
      RecoverStatuses(s);
    } else if a.Claim? {
      ClaimedHeadExists(s.jobs);
    }
  }

  lemma StepStatus(s: State, a: Action, j: int)
    requires Inv(s) && Enabled(s, a) && 0 <= j < |s.jobs|
    ensures j < |Next(s, a).jobs| && Next(s, a).jobs[j].status == StatusAfter(s, a, j)
  {
    if WritesJobs(a) { WriterStatus(s, a, j); } else { OthersKeepJobs(s, a); }
  }

  /** No step returns a job to the queue. */
  lemma NeverQueuedAgain(s: State, a: Action, j: int)
    requires Inv(s) && Enabled(s, a) && 0 <= j < |s.jobs| && s.jobs[j].status != Queued
    ensures j < |Next(s, a).jobs| && Next(s, a).jobs[j].status != Queued
  {
    StepStatus(s, a, j);
  }

  /**
    Who may change the status of a job that left the queue: its own owner, a cancelling
    request for it, or startup recovery.
   */
  lemma OnlyOwnersWrite(s: State, a: Action, j: int)
    requires Inv(s) && Enabled(s, a) && 0 <= j < |s.jobs| && s.jobs[j].status != Queued
    requires j < |Next(s, a).jobs| && Next(s, a).jobs[j].status != s.jobs[j].status
    ensures match a
            case Abandon(p) => OwnsJob(s, PumpOwner(p), j)
            case Begin(w) => OwnsJob(s, WorkerOwner(w), j)
            case Finish(w, _) => OwnsJob(s, WorkerOwner(w), j)
            case Finalize(w) => OwnsJob(s, WorkerOwner(w), j)
            case CancelCommit(c) => s.cancels[c].job == j
            case Recover => InFlight(s.jobs[j].status)
            case _ => false
  {
    StepStatus(s, a, j);
    QueueListsRows(s.jobs, Immediate);
  }

  // ---------------------------------------------------------------- what is final

  /** What the request read is still what the table says. */
  predicate Fresh(s: State, c: int)
    requires CanCommit(s, c)
  {
    match s.cancels[c]
    case SawJob(job, status) => s.jobs[job].status == status
    case SawRun(job, run) => InFlight(s.jobs[job].status) && LatestRunning(s.runs, job, |s.runs|) == run
  }

  /**
    The exact condition: a done or failed job changes if and only if a cancelling request
    commits on it, and such a request is always stale.
   */
  lemma FinishedChangesIffStaleCancel(s: State, a: Action, j: int)
    requires Inv(s) && Enabled(s, a) && 0 <= j < |s.jobs|
    requires s.jobs[j].status == Done || s.jobs[j].status == Failed
    ensures j < |Next(s, a).jobs|
    ensures Next(s, a).jobs[j].status != s.jobs[j].status
            <==> a.CancelCommit? && s.cancels[a.c].job == j && !Fresh(s, a.c)
  {
    StepStatus(s, a, j);
    QueueListsRows(s.jobs, Immediate);
  }

  /** Every cancel commits on rows that still are as it read them. */
  predicate CancelsAreFresh(s: State, trace: seq<Action>)
    decreases |trace|
  {
    trace == [] ||
    (Enabled(s, trace[0])
     && (trace[0].CancelCommit? ==> Fresh(s, trace[0].c))
     && CancelsAreFresh(Next(s, trace[0]), trace[1..]))
  }

  /** Done and failed are absorbing over whole runs without stale cancels. */
  lemma {:induction false} FinishedIsFinal(s: State, trace: seq<Action>, j: int)
    requires Inv(s) && CancelsAreFresh(s, trace) && 0 <= j < |s.jobs|
    requires s.jobs[j].status == Done || s.jobs[j].status == Failed
    ensures Exec(s, trace).Some? && j < |Exec(s, trace).value.jobs|
    ensures Exec(s, trace).value.jobs[j].status == s.jobs[j].status
    decreases |trace|
  {
    if trace != [] {
      var t := Next(s, trace[0]);
      FinishedChangesIffStaleCancel(s, trace[0], j);
      StepKeepsInv(s, trace[0]);
      FinishedIsFinal(t, trace[1..], j);
    }
  }

  ghost predicate Unowned(s: State, j: int) {
    forall o :: !OwnsJob(s, o, j)
  }

  /** Only its own steps move a pump; a new one starts out waiting. */
  lemma OthersKeepPumpPhases(s: State, a: Action, p: int)
    requires Enabled(s, a) && !ByPump(a) && 0 <= p < |Next(s, a).pumps|
    ensures Next(s, a).pumps[p].phase == if p < |s.pumps| then s.pumps[p].phase else Waiting
  {
  }

  lemma OwnStepTakesNothing(s: State, a: Action, j: int, p: int)
    requires Enabled(s, a) && ByPump(a) && 0 <= j < |s.jobs|
    requires s.jobs[j].status != Queued && !PumpOwns(s, p, j)
    ensures !PumpOwns(Next(s, a), p, j)
  {
    if a.Claim? { ClaimedHeadExists(s.jobs); }
  }

  lemma NoPumpTakesOver(s: State, a: Action, j: int, p: int)
    requires Inv(s) && Enabled(s, a) && 0 <= j < |s.jobs|
    requires s.jobs[j].status != Queued && !PumpOwns(s, p, j)
    ensures !PumpOwns(Next(s, a), p, j)
  {
    if ByPump(a) {
      OwnStepTakesNothing(s, a, j, p);
    } else if 0 <= p < |Next(s, a).pumps| {
      OthersKeepPumpPhases(s, a, p);
    }
  }

  lemma NoWorkerTakesOver(s: State, a: Action, j: int, w: int)
    requires Enabled(s, a) && !WorkerOwns(s, w, j)
    requires a.Spawn? ==> !PumpOwns(s, a.p, j)
    ensures !WorkerOwns(Next(s, a), w, j)
  {
  }

  lemma UnownedStays(s: State, a: Action, j: int)
    requires Inv(s) && Enabled(s, a) && 0 <= j < |s.jobs|
    requires s.jobs[j].status != Queued && Unowned(s, j)
    ensures Unowned(Next(s, a), j)
  {
    forall o ensures !OwnsJob(Next(s, a), o, j) {
      assert !OwnsJob(s, o, j);
      match o
      case PumpOwner(p) =>
        NoPumpTakesOver(s, a, j, p);
      case WorkerOwner(w) =>
        assert a.Spawn? ==> !OwnsJob(s, PumpOwner(a.p), j);
        NoWorkerTakesOver(s, a, j, w);
    }
  }

  lemma CancelledUnownedStays(s: State, a: Action, j: int)
    requires Inv(s) && Enabled(s, a) && 0 <= j < |s.jobs|
    requires s.jobs[j].status == Cancelled && Unowned(s, j)
    ensures j < |Next(s, a).jobs| && Next(s, a).jobs[j].status == Cancelled
  {
    StepStatus(s, a, j);
    QueueListsRows(s.jobs, Immediate);
    if a.Begin? || a.Finish? || a.Finalize? {
      assert !OwnsJob(s, WorkerOwner(a.w), j);
    } else if a.Abandon? {
      assert !OwnsJob(s, PumpOwner(a.p), j);
    }
  }

  /** A cancelled job that no thread owns stays cancelled, whatever happens. */
  lemma {:induction false} CancelledUnownedIsFinal(s: State, trace: seq<Action>, j: int)
    requires Inv(s) && Exec(s, trace).Some? && 0 <= j < |s.jobs|
    requires s.jobs[j].status == Cancelled && Unowned(s, j)
    ensures j < |Exec(s, trace).value.jobs| && Exec(s, trace).value.jobs[j].status == Cancelled
    decreases |trace|
  {
    if trace != [] {
      CancelledUnownedStays(s, trace[0], j);
      UnownedStays(s, trace[0], j);
      StepKeepsInv(s, trace[0]);
      CancelledUnownedIsFinal(Next(s, trace[0]), trace[1..], j);
    }
  }

  /** Cancelling a job that is still queued is final over every continuation. */
  lemma CancelledWhileQueuedIsFinal(s: State, c: int, trace: seq<Action>)
    requires Inv(s) && Enabled(s, CancelCommit(c))
    requires s.jobs[s.cancels[c].job].status == Queued
    requires Exec(CommitCancel(s, c), trace).Some?
    ensures var j := s.cancels[c].job;
            var t := Exec(CommitCancel(s, c), trace).value;
            j < |t.jobs| && t.jobs[j].status == Cancelled
  {
    var j := s.cancels[c].job;
    var t := CommitCancel(s, c);
    StepKeepsInv(s, CancelCommit(c));
    forall o ensures !OwnsJob(t, o, j) {
      if o.PumpOwner? && 0 <= o.p < |s.pumps| { assert PumpOk(s, s.pumps[o.p].phase); }
    }
    CancelledUnownedIsFinal(t, trace, j);
  }

  /**
    Exactly when a cancelled job changes: its own worker or pump commits, having missed the
    cancel.  The crash handler and the abandoned claim only do so on a status they read before.
   */
  lemma CancelledChangesIffOwnerMissedIt(s: State, a: Action, j: int)
    requires Inv(s) && Enabled(s, a) && 0 <= j < |s.jobs| && s.jobs[j].status == Cancelled
    ensures j < |Next(s, a).jobs|
    ensures Next(s, a).jobs[j].status != Cancelled <==>
            match a
            case Begin(w) => WorkerOwns(s, w, j)
            case Finish(w, _) => WorkerOwns(s, w, j)
            case Finalize(w) => WorkerOwns(s, w, j) && InFlight(s.workers[w].phase.job)
            case Abandon(p) => PumpOwns(s, p, j) && s.pumps[p].phase.seen == Claimed
            case _ => false
  {
    StepStatus(s, a, j);
    QueueListsRows(s.jobs, Immediate);
  }

  // ---------------------------------------------------------------- done and success

  ghost predicate HasRun(s: State, j: int) {
    exists r :: 0 <= r < |s.runs| && s.runs[r].job == j
  }

  /** A job is done if and only if it has a run, its only one, and that run is a success. */
  ghost predicate Coupled(s: State) {
    && (forall j :: 0 <= j < |s.jobs| && s.jobs[j].status == Done ==> HasRun(s, j))
    && (forall r :: 0 <= r < |s.runs| && 0 <= s.runs[r].job < |s.jobs| ==>
          (s.jobs[s.runs[r].job].status == Done <==> s.runs[r].status == RunSuccess))
  }

  /** A cancel of a finished job by a request that had seen no running run of it. */
  predicate Decouples(s: State, a: Action)
    requires Enabled(s, a)
  {
    a.CancelCommit? && s.jobs[s.cancels[a.c].job].status == Done
    && !(s.cancels[a.c].SawRun? && s.cancels[a.c].run.Some?)
  }

  /** The status a step gives a run row. */
  function RunAfter(s: State, a: Action, r: int): RunStatus
    requires Enabled(s, a) && 0 <= r < |s.runs|
  {
    var status := s.runs[r].status;
    match a
    case CancelCommit(c) => if s.cancels[c].SawRun? && s.cancels[c].run == Some(r) then RunError else status
    case Begin(w) => if w == r && s.workers[w].phase.run != RunRunning then RunRunning else status
    case Finish(w, outcome) => if w == r then OutcomeStatus(outcome) else status
    case Finalize(w) => if w == r && s.workers[w].phase.run == RunRunning then RunError else status
    case Recover => if status == RunRunning then RunError else status
    case _ => status
  }

  /** The steps whose commit writes a run row. */
  predicate WritesRuns(a: Action) {
    a.CancelCommit? || a.CreateRun? || a.Begin? || a.Finish? || a.Finalize? || a.Recover?
  }

  lemma OthersKeepRuns(s: State, a: Action)
    requires Enabled(s, a) && !WritesRuns(a)
    ensures Next(s, a).runs == s.runs
  {
  }

  lemma WriterRun(s: State, a: Action, r: int)
    requires Enabled(s, a) && 0 <= r < |s.runs| && WritesRuns(a)
    ensures r < |Next(s, a).runs| && Next(s, a).runs[r] == Run(s.runs[r].job, RunAfter(s, a, r))
  {
    if a.Recover? {
      RecoverStatuses(s);
    }
  }

  lemma StepRun(s: State, a: Action, r: int)
    requires Enabled(s, a) && 0 <= r < |s.runs|
    ensures r < |Next(s, a).runs| && Next(s, a).runs[r] == Run(s.runs[r].job, RunAfter(s, a, r))
  {
    if WritesRuns(a) { WriterRun(s, a, r); } else { OthersKeepRuns(s, a); }
  }

  lemma NewJobsAreQueued(s: State, a: Action)
    requires Enabled(s, a)
    ensures var t := Next(s, a);
            |s.jobs| <= |t.jobs| && (forall j :: |s.jobs| <= j < |t.jobs| ==> t.jobs[j].status == Queued)
  {
    if !WritesJobs(a) {
      OthersKeepJobs(s, a);
    } else if a.QueueEdit? {
      QueueRefinement.EditKeepsStatuses(s.jobs, a.edit);
    } else if a.Recover? {
      RecoverStatuses(s);
    } else if a.Claim? {
      ClaimedHeadExists(s.jobs);
    }
  }

  lemma NewRunsAreRunning(s: State, a: Action)
    requires Inv(s) && Enabled(s, a)
    ensures var t := Next(s, a);
            && |s.runs| <= |t.runs|
            && (forall r :: |s.runs| <= r < |t.runs| ==>
                  && a.CreateRun? && t.runs[r] == Run(s.pumps[a.p].phase.job, RunRunning)
                  && 0 <= t.runs[r].job < |s.jobs| && Waits(s.jobs[t.runs[r].job].status))
  {
    if !WritesRuns(a) {
      OthersKeepRuns(s, a);
    } else if a.Recover? {
      RecoverStatuses(s);
    } else if a.CreateRun? {
      assert PumpOk(s, s.pumps[a.p].phase);
    }
  }

  lemma NewRowsAreOpen(s: State, a: Action)
    requires Inv(s) && Enabled(s, a)
    ensures var t := Next(s, a);
            && |s.jobs| <= |t.jobs| && (forall j :: |s.jobs| <= j < |t.jobs| ==> t.jobs[j].status == Queued)
            && |s.runs| <= |t.runs|
            && (forall r :: |s.runs| <= r < |t.runs| ==>
                  && a.CreateRun? && t.runs[r] == Run(s.pumps[a.p].phase.job, RunRunning)
                  && 0 <= t.runs[r].job < |s.jobs| && Waits(s.jobs[t.runs[r].job].status))
  {
    NewJobsAreQueued(s, a);
    NewRunsAreRunning(s, a);
  }

  /** One run and its job agree after the step, provided the step does not decouple them. */
  lemma RunStaysCoupled(s: State, a: Action, r: int)
    requires Inv(s) && Enabled(s, a) && Coupled(s) && !Decouples(s, a) && 0 <= r < |s.runs|
    ensures StatusAfter(s, a, s.runs[r].job) == Done <==> RunAfter(s, a, r) == RunSuccess
  {
    var j := s.runs[r].job;
    QueueListsRows(s.jobs, Immediate);
    match a
    case CancelCommit(c) => assert CancelOk(s, s.cancels[c]);
    case Abandon(p) => assert PumpOk(s, s.pumps[p].phase);
    case Begin(w) => WorkerOwnsAlone(s, w);
    case Finish(w, _) => WorkerOwnsAlone(s, w);
    case Finalize(w) => WorkerOwnsAlone(s, w);
    case _ =>
  }

  lemma DecouplingBreaks(s: State, a: Action)
    requires Inv(s) && Enabled(s, a) && Coupled(s) && Decouples(s, a)
    ensures !Coupled(Next(s, a))
  {
    var j := s.cancels[a.c].job;
    var r :| 0 <= r < |s.runs| && s.runs[r].job == j;
    StepRun(s, a, r);
    StepStatus(s, a, j);
    assert Next(s, a).runs[r].status == RunSuccess;
  }

  lemma OtherStepsKeepCoupled(s: State, a: Action)
    requires Inv(s) && Enabled(s, a) && Coupled(s) && !Decouples(s, a)
    ensures Coupled(Next(s, a))
  {
    var t := Next(s, a);
    NewRowsAreOpen(s, a);
    forall j | 0 <= j < |s.jobs| ensures t.jobs[j].status == StatusAfter(s, a, j) { StepStatus(s, a, j); }
    forall r | 0 <= r < |s.runs| ensures t.runs[r] == Run(s.runs[r].job, RunAfter(s, a, r)) { StepRun(s, a, r); }
    forall r | 0 <= r < |t.runs| && 0 <= t.runs[r].job < |t.jobs|
      ensures t.jobs[t.runs[r].job].status == Done <==> t.runs[r].status == RunSuccess
    {
      if r < |s.runs| { RunStaysCoupled(s, a, r); }
    }
    forall j | 0 <= j < |t.jobs| && t.jobs[j].status == Done ensures HasRun(t, j) {
      DoneHasRun(s, a, j);
      var r :| 0 <= r < |s.runs| && s.runs[r].job == j;
      assert t.runs[r].job == j;
    }
  }

  /** The exact condition: a step keeps "done iff success" unless it decouples. */
  lemma CoupledIffNotDecoupled(s: State, a: Action)
    requires Inv(s) && Enabled(s, a) && Coupled(s)
    ensures Coupled(Next(s, a)) <==> !Decouples(s, a)
  {
    if Decouples(s, a) { DecouplingBreaks(s, a); } else { OtherStepsKeepCoupled(s, a); }
  }

  lemma DoneHasRun(s: State, a: Action, j: int)
    requires Inv(s) && Enabled(s, a) && Coupled(s) && 0 <= j < |s.jobs| && StatusAfter(s, a, j) == Done
    ensures HasRun(s, j)
  {
    if s.jobs[j].status != Done {
      assert a.Finish? && s.runs[a.w].job == j;
    }
  }

  /** No step of the run decouples. */
  predicate NeverDecouples(s: State, trace: seq<Action>)
    decreases |trace|
  {
    trace == [] ||
    (Enabled(s, trace[0]) && !Decouples(s, trace[0]) && NeverDecouples(Next(s, trace[0]), trace[1..]))
  }

  /** At every commit a job is done iff its run is a success. */
  lemma {:induction false} DoneIffSuccess(s: State, trace: seq<Action>)
    requires Inv(s) && Coupled(s) && NeverDecouples(s, trace)
    ensures Exec(s, trace).Some? && Coupled(Exec(s, trace).value)
    decreases |trace|
  {
    if trace != [] {
      CoupledIffNotDecoupled(s, trace[0]);
      StepKeepsInv(s, trace[0]);
      DoneIffSuccess(Next(s, trace[0]), trace[1..]);
    }
  }

  /** A run whose cancels are fresh never decouples, so the equivalence holds from process start on. */
  lemma {:induction false} FreshCancelsNeverDecouple(s: State, trace: seq<Action>)
    requires CancelsAreFresh(s, trace)
    ensures NeverDecouples(s, trace)
    decreases |trace|
  {
    if trace != [] {
      FreshCancelsNeverDecouple(Next(s, trace[0]), trace[1..]);
    }
  }

  lemma DoneIffSuccessFromStart(trace: seq<Action>)
    requires CancelsAreFresh(INITIAL, trace)
    ensures Exec(INITIAL, trace).Some? && Coupled(Exec(INITIAL, trace).value)
  {
    FreshCancelsNeverDecouple(INITIAL, trace);
    DoneIffSuccess(INITIAL, trace);
  }

  // ---------------------------------------------------------------- the failing family is reachable

  lemma {:induction false} ExecAppend(s: State, trace: seq<Action>, a: Action)
    requires Exec(s, trace).Some? && Enabled(Exec(s, trace).value, a)
    ensures Exec(s, trace + [a]) == Some(Next(Exec(s, trace).value, a))
    decreases |trace|
  {
    if trace == [] {
      assert [a][1..] == [];
      assert trace + [a] == [a];
    } else {
      ExecAppend(Next(s, trace[0]), trace[1..], a);
      assert (trace + [a])[1..] == trace[1..] + [a];
    }
  }

  lemma ReachableStep(s: State, a: Action)
    requires Reachable(s) && Enabled(s, a)
    ensures Reachable(Next(s, a))
  {
    var trace :| Exec(INITIAL, trace) == Some(s);
    ExecAppend(INITIAL, trace, a);
  }

  /** A started process with one queued job. */
  lemma OneQueued() returns (s: State)
    ensures Reachable(s)
    ensures s == State(true, [Job(Queued, Immediate, 1)], [], [], map[], map[])
  {
    assert Exec(INITIAL, []) == Some(INITIAL);
    ReachableStep(INITIAL, Recover);
    RecoverStatuses(INITIAL);
    var started := State(true, [], [], [], map[], map[]);
    assert Next(INITIAL, Recover) == started;
    ReachableStep(started, QueueEdit(Enqueue(Immediate)));
    s := Next(started, QueueEdit(Enqueue(Immediate)));
  }

  /** The pump has claimed it. */
  lemma OneClaimed() returns (s: State)
    ensures Reachable(s)
    ensures s == State(true, [Job(Claimed, Immediate, 1)], [], [Pump(1, 0, ClaimedJob(0), [])], map[], map[])
  {
    s := OneQueued();
    ReachableStep(s, StartPump(None));
    s := NewPump(s, None);
    ReachableStep(s, Acquire(0));
    s := TakePermit(s, 0);
    QueueSpec(s.jobs, Immediate);
    ClaimedHeadExists(s.jobs);
    assert IsQueued(s.jobs, Immediate, 0);
    ReachableStep(s, Claim(0));
    s := ClaimHead(s, 0);
  }

  /** A request reads the claimed job before its run row exists; then the run is created. */
  lemma ClaimedAndSeen() returns (s: State)
    ensures Reachable(s)
    ensures s == State(true, [Job(Claimed, Immediate, 1)], [Run(0, RunRunning)],
                       [Pump(1, 0, CreatedRun(0, 0), [])], map[], map[0 := SawRun(0, None)])
  {
    s := OneClaimed();
    ReachableStep(s, CancelReadJob(0, 0));
    s := ReadJobForCancel(s, 0, 0);
    ReachableStep(s, CancelReadRun(0));
    s := ReadRunForCancel(s, 0);
    ReachableStep(s, CreateRun(0));
    s := AddRun(s, 0);
  }

  /** The worker has loaded its rows. */
  lemma LoadedAndSeen() returns (s: State)
    ensures Reachable(s)
    ensures s == State(true, [Job(Claimed, Immediate, 1)], [Run(0, RunRunning)], [Pump(1, 0, Waiting, [0])],
                       map[0 := Worker(0, 0, Loaded(RunRunning, Claimed))], map[0 := SawRun(0, None)])
  {
    s := ClaimedAndSeen();
    ReachableStep(s, Spawn(0));
    s := StartWorker(s, 0);
    assert s.pumps[0].started == [0] && s.pumps == [Pump(1, 0, Waiting, [0])];
    ReachableStep(s, LoadRun(0));
    s := SetWorker(s, 0, LoadedRun(RunRunning));
    ReachableStep(s, LoadJob(0));
    s := ReadJob(s, 0);
    assert s.workers == map[0 := Worker(0, 0, Loaded(RunRunning, Claimed))];
  }

  /**
    A concrete run on which "done is final" and "done iff success" fail: a request reads the
    claimed job before its run row exists, the review then succeeds, and the request commits.
   */
  lemma StaleCancelOverwritesDone()
    ensures exists s, c :: Reachable(s) && Enabled(s, CancelCommit(c)) && DoneThenCancelled(s, c)
  {
    var s := LoadedAndSeen();
    ReachableStep(s, Begin(0));
    s := BeginExecution(s, 0);
    var ok := Outcome(0, false);
    ReachableStep(s, Finish(0, ok));
    s := ApplyOutcome(s, 0, ok);
    assert DoneThenCancelled(s, 0);
  }

  predicate DoneThenCancelled(s: State, c: int) {
    && CanCommit(s, c) && s.cancels[c].job == 0 && |s.runs| > 0
    && s.jobs[0].status == Done && s.runs[0] == Run(0, RunSuccess)
    && CommitCancel(s, c).jobs[0].status == Cancelled && CommitCancel(s, c).runs[0] == Run(0, RunSuccess)
  }
}
