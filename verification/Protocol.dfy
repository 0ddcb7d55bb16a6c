/**
  The review-job protocol of app/scheduler/worker.py, app/services/review_service.py and
  app/scheduler/recovery.py as a transition system.  Each database commit is one step, and so
  is each read by a pump, a worker or a cancelling request that one of its commits depends on.
  Any number of jobs, pumps, workers and cancelling requests interleave freely.
 */
module Protocol {
  import opened Wrappers
  import opened JobQueue

  datatype RunStatus = RunRunning | RunSuccess | RunError | RunTimeout

  /** A review_run row; its id is its index. */
  datatype Run = Run(job: int, status: RunStatus)

  /** Where a pump_once call is; the job it has claimed but not yet handed to a worker. */
  datatype PumpPhase =
    | Waiting                          // at semaphore.acquire()
    | Holding                          // has a permit, about to claim
    | ClaimedJob(job: int)             // claim committed, run row not yet
    | Abandoning(job: int)             // creating the run row raised
    | AbandonLoaded(job: int, seen: JobStatus)
    | CreatedRun(job: int, run: int)   // run row committed, thread not yet started
    | Stopped

  datatype Pump = Pump(cap: int, free: int, phase: PumpPhase, started: seq<int>)

  /**
    Where a worker thread is.  The session keeps the values it loaded (expire_on_commit is
    off) and writes a column only when the assigned value differs from the loaded one, so the
    loaded statuses are part of the phase.
   */
  datatype WorkerPhase =
    | Spawned
    | LoadedRun(run: RunStatus)
    | Loaded(run: RunStatus, job: JobStatus)
    | Executing
    | Settled       // outcome committed
    | Crashed       // an exception reached _worker
    | CrashLoadedRun(run: RunStatus)
    | CrashLoaded(run: RunStatus, job: JobStatus)
    | Finalized     // _finalize_crashed_run committed

  /** A worker executes one run; workers are keyed by run id. */
  datatype Worker = Worker(pump: int, job: int, phase: WorkerPhase)

  /** A cancelling request between its reads and its commit. */
  datatype Canceller =
    | SawJob(job: int, status: JobStatus)
    | SawRun(job: int, run: Option<int>)

  datatype State = State(
    up: bool,
    jobs: Table,
    runs: seq<Run>,
    pumps: seq<Pump>,
    workers: map<int, Worker>,
    cancels: map<int, Canceller>)

  datatype Outcome = Outcome(exitCode: int, timedOut: bool)

  datatype Action =
    | QueueEdit(edit: Edit)
    | CancelReadJob(c: int, job: int)
    | CancelReadRun(c: int)
    | CancelCommit(c: int)
    | StartPump(setting: Option<int>)
    | Acquire(p: int)
    | Claim(p: int)
    | ClaimFails(p: int)
    | CreateRun(p: int)
    | CreateRunFails(p: int)
    | AbandonRead(p: int)
    | Abandon(p: int)
    | Spawn(p: int)
    | LoadRun(w: int)
    | LoadJob(w: int)
    | Begin(w: int)
    | Finish(w: int, outcome: Outcome)
    | Crash(w: int)
    | FinalizeReadRun(w: int)
    | FinalizeReadJob(w: int)
    | Finalize(w: int)
    | Release(w: int)
    | AppCrash
    | Recover

  // ---------------------------------------------------------------- pieces of steps

  predicate InFlight(status: JobStatus) {
    status == Claimed || status == Running
  }

  predicate Terminal(status: JobStatus) {
    status == Done || status == Failed || status == Cancelled
  }

  /** The worker may still run its crash handler, so it may still write its rows. */
  predicate Live(phase: WorkerPhase) {
    !phase.Finalized?
  }

  /** In the crash handler, before its commit. */
  predicate Failing(phase: WorkerPhase) {
    phase.Crashed? || phase.CrashLoadedRun? || phase.CrashLoaded?
  }

  /** Only the finally clause is left to run. */
  predicate Over(phase: WorkerPhase) {
    phase.Settled? || phase.Finalized?
  }

  /** max(1, int(max_concurrent_reviews or 1)) */
  function Cap(setting: Option<int>): int {
    if setting.None? || setting.value < 1 then 1 else setting.value
  }

  function OutcomeStatus(outcome: Outcome): RunStatus {
    if outcome.timedOut then RunTimeout
    else if outcome.exitCode == 0 then RunSuccess
    else RunError
  }

  function SetRun(runs: seq<Run>, r: int, status: RunStatus): seq<Run>
    requires 0 <= r < |runs|
  {
    runs[r := runs[r].(status := status)]
  }

  /** The running run of a job with the highest id, among the first n rows. */
  function LatestRunning(runs: seq<Run>, job: int, n: nat): (r: Option<int>)
    requires n <= |runs|
    ensures r.Some? ==> 0 <= r.value < n && runs[r.value] == Run(job, RunRunning)
                        && forall i :: r.value < i < n ==> runs[i] != Run(job, RunRunning)
    ensures r.None? ==> forall i :: 0 <= i < n ==> runs[i] != Run(job, RunRunning)
  {
    if n == 0 then None
    else if runs[n - 1] == Run(job, RunRunning) then Some(n - 1)
    else LatestRunning(runs, job, n - 1)
  }

  function CommitCancel(s: State, c: int): State
    requires c in s.cancels && CanCommit(s, c)
  {
    var view := s.cancels[c];
    var runs := if view.SawRun? && view.run.Some? then SetRun(s.runs, view.run.value, RunError) else s.runs;
    s.(jobs := SetStatus(s.jobs, view.job, Cancelled), runs := runs, cancels := s.cancels - {c})
  }

  predicate CanCommit(s: State, c: int) {
    && c in s.cancels
    && 0 <= s.cancels[c].job < |s.jobs|
    && match s.cancels[c]
       case SawJob(_, status) => status == Queued
       case SawRun(_, run) => run.Some? ==> 0 <= run.value < |s.runs|
  }

  predicate HasPump(s: State, p: int) {
    s.up && 0 <= p < |s.pumps|
  }

  predicate HasWorker(s: State, w: int) {
    s.up && w in s.workers && 0 <= w < |s.runs| && 0 <= s.workers[w].job < |s.jobs|
  }

  function SetPhase(s: State, p: int, phase: PumpPhase): State
    requires 0 <= p < |s.pumps|
  {
    s.(pumps := s.pumps[p := s.pumps[p].(phase := phase)])
  }

  function SetWorker(s: State, w: int, phase: WorkerPhase): State
    requires w in s.workers
  {
    s.(workers := s.workers[w := s.workers[w].(phase := phase)])
  }

  /** The pump gives its own permit back and leaves its loop. */
  function Stop(s: State, p: int): State
    requires 0 <= p < |s.pumps|
  {
    s.(pumps := s.pumps[p := s.pumps[p].(phase := Stopped, free := s.pumps[p].free + 1)])
  }

  /** _abandon_claim, from the status it read. */
  function AbandonClaim(jobs: Table, job: int, seen: JobStatus): Table
    requires 0 <= job < |jobs|
  {
    if seen == Claimed then SetStatus(jobs, job, Failed) else jobs
  }

  function BeginExecution(s: State, w: int): State
    requires HasWorker(s, w) && s.workers[w].phase.Loaded?
  {
    var view, job := s.workers[w].phase, s.workers[w].job;
    SetWorker(s, w, Executing).(
      runs := if view.run == RunRunning then s.runs else SetRun(s.runs, w, RunRunning),
      jobs := if view.job == Running then s.jobs else SetStatus(s.jobs, job, Running))
  }

  function ApplyOutcome(s: State, w: int, outcome: Outcome): State
    requires HasWorker(s, w)
  {
    var status := OutcomeStatus(outcome);
    SetWorker(s, w, Settled).(
      runs := SetRun(s.runs, w, status),
      jobs := SetStatus(s.jobs, s.workers[w].job, if status == RunSuccess then Done else Failed))
  }

  /** _finalize_crashed_run, from the two statuses it read. */
  function FinalizeCrashed(s: State, w: int): State
    requires HasWorker(s, w) && s.workers[w].phase.CrashLoaded?
  {
    var CrashLoaded(seenRun, seenJob) := s.workers[w].phase;
    SetWorker(s, w, Finalized).(
      runs := if seenRun == RunRunning then SetRun(s.runs, w, RunError) else s.runs,
      jobs := if InFlight(seenJob) then SetStatus(s.jobs, s.workers[w].job, Failed) else s.jobs)
  }

  // ---------------------------------------------------------------- startup recovery

  function FailInFlight(jobs: Table): (r: Table)
    ensures |r| == |jobs|
    ensures forall i :: 0 <= i < |jobs| ==>
              r[i] == if InFlight(jobs[i].status) then jobs[i].(status := Failed) else jobs[i]
  {
    seq(|jobs|, i requires 0 <= i < |jobs| =>
      if InFlight(jobs[i].status) then jobs[i].(status := Failed) else jobs[i])
  }

  function EndRunning(runs: seq<Run>): (r: seq<Run>)
    ensures |r| == |runs|
    ensures forall i :: 0 <= i < |runs| ==>
              r[i] == if runs[i].status == RunRunning then runs[i].(status := RunError) else runs[i]
  {
    seq(|runs|, i requires 0 <= i < |runs| =>
      if runs[i].status == RunRunning then runs[i].(status := RunError) else runs[i])
  }

  function RunningRuns(runs: seq<Run>): set<int> {
    set r | 0 <= r < |runs| && runs[r].status == RunRunning
  }

  predicate HasRunningRun(runs: seq<Run>, job: int) {
    exists r :: 0 <= r < |runs| && runs[r] == Run(job, RunRunning)
  }

  /** In-flight jobs that no running run points at. */
  function StuckJobs(jobs: Table, runs: seq<Run>): set<int> {
    set j | 0 <= j < |jobs| && InFlight(jobs[j].status) && !HasRunningRun(runs, j)
  }

  function RecoveredCount(jobs: Table, runs: seq<Run>): nat {
    |RunningRuns(runs)| + |StuckJobs(jobs, runs)|
  }

  function RecoverOrphans(s: State): State {
    var jobs := FailInFlight(s.jobs);
    s.(up := true,
       runs := EndRunning(s.runs),
       jobs := if RecoveredCount(s.jobs, s.runs) > 0 then CompactPositions(jobs) else jobs)
  }

  // ---------------------------------------------------------------- the transition system

  /** Process start on an empty database. */
  const INITIAL := State(false, [], [], [], map[], map[])

  predicate Enabled(s: State, a: Action) {
    match a
    case QueueEdit(e) => s.up && Names(s.jobs, e)
    case CancelReadJob(c, job) => s.up && c !in s.cancels && 0 <= job < |s.jobs|
    case CancelReadRun(c) => s.up && c in s.cancels && s.cancels[c].SawJob? && InFlight(s.cancels[c].status)
    case CancelCommit(c) => s.up && CanCommit(s, c)
    case StartPump(_) => s.up
    case Acquire(p) => HasPump(s, p) && s.pumps[p].phase.Waiting? && s.pumps[p].free > 0
    case Claim(p) => HasPump(s, p) && s.pumps[p].phase.Holding?
    case ClaimFails(p) => HasPump(s, p) && s.pumps[p].phase.Holding?
    case CreateRun(p) => HasPump(s, p) && s.pumps[p].phase.ClaimedJob?
    case CreateRunFails(p) => HasPump(s, p) && s.pumps[p].phase.ClaimedJob?
    case AbandonRead(p) =>
      HasPump(s, p) && s.pumps[p].phase.Abandoning? && 0 <= s.pumps[p].phase.job < |s.jobs|
    case Abandon(p) =>
      HasPump(s, p) && s.pumps[p].phase.AbandonLoaded? && 0 <= s.pumps[p].phase.job < |s.jobs|
    case Spawn(p) => HasPump(s, p) && s.pumps[p].phase.CreatedRun?
    case LoadRun(w) => HasWorker(s, w) && s.workers[w].phase.Spawned?
    case LoadJob(w) => HasWorker(s, w) && s.workers[w].phase.LoadedRun?
    case Begin(w) => HasWorker(s, w) && s.workers[w].phase.Loaded?
    case Finish(w, _) => HasWorker(s, w) && s.workers[w].phase.Executing?
    case Crash(w) => HasWorker(s, w) && !Failing(s.workers[w].phase) && !s.workers[w].phase.Finalized?
    case FinalizeReadRun(w) => HasWorker(s, w) && s.workers[w].phase.Crashed?
    case FinalizeReadJob(w) => HasWorker(s, w) && s.workers[w].phase.CrashLoadedRun?
    case Finalize(w) => HasWorker(s, w) && s.workers[w].phase.CrashLoaded?
    case Release(w) =>
      HasWorker(s, w) && Over(s.workers[w].phase) && 0 <= s.workers[w].pump < |s.pumps|
    case AppCrash => s.up
    case Recover => !s.up
  }

  /** queue_cancel answers "not queued" for a terminal job and keeps nothing. */
  function ReadJobForCancel(s: State, c: int, job: int): State
    requires 0 <= job < |s.jobs|
  {
    if Terminal(s.jobs[job].status) then s
    else s.(cancels := s.cancels[c := SawJob(job, s.jobs[job].status)])
  }

  function ReadRunForCancel(s: State, c: int): State
    requires c in s.cancels
  {
    var job := s.cancels[c].job;
    s.(cancels := s.cancels[c := SawRun(job, LatestRunning(s.runs, job, |s.runs|))])
  }

  function NewPump(s: State, setting: Option<int>): State {
    s.(pumps := s.pumps + [Pump(Cap(setting), Cap(setting), Waiting, [])])
  }

  function TakePermit(s: State, p: int): State
    requires 0 <= p < |s.pumps|
  {
    s.(pumps := s.pumps[p := s.pumps[p].(phase := Holding, free := s.pumps[p].free - 1)])
  }

  /** claim_next: the head of the immediate queue, or the end of the pump when it is empty. */
  function ClaimHead(s: State, p: int): State
    requires 0 <= p < |s.pumps|
  {
    var queue := Queue(s.jobs, Immediate);
    if queue == [] then Stop(s, p)
    else
      ClaimedHeadExists(s.jobs);
      SetPhase(s, p, ClaimedJob(queue[0])).(jobs := SetStatus(s.jobs, queue[0], Claimed))
  }

  function AddRun(s: State, p: int): State
    requires 0 <= p < |s.pumps| && s.pumps[p].phase.ClaimedJob?
  {
    var job := s.pumps[p].phase.job;
    SetPhase(s, p, CreatedRun(job, |s.runs|)).(runs := s.runs + [Run(job, RunRunning)])
  }

  function ReadAbandoned(s: State, p: int): State
    requires 0 <= p < |s.pumps| && s.pumps[p].phase.Abandoning? && 0 <= s.pumps[p].phase.job < |s.jobs|
  {
    var job := s.pumps[p].phase.job;
    SetPhase(s, p, AbandonLoaded(job, s.jobs[job].status))
  }

  function AbandonAndStop(s: State, p: int): State
    requires 0 <= p < |s.pumps| && s.pumps[p].phase.AbandonLoaded? && 0 <= s.pumps[p].phase.job < |s.jobs|
  {
    Stop(s, p).(jobs := AbandonClaim(s.jobs, s.pumps[p].phase.job, s.pumps[p].phase.seen))
  }

  function StartWorker(s: State, p: int): State
    requires 0 <= p < |s.pumps| && s.pumps[p].phase.CreatedRun?
  {
    var CreatedRun(job, run) := s.pumps[p].phase;
    s.(workers := s.workers[run := Worker(p, job, Spawned)],
       pumps := s.pumps[p := s.pumps[p].(phase := Waiting, started := s.pumps[p].started + [run])])
  }

  function ReadJob(s: State, w: int): State
    requires HasWorker(s, w) && s.workers[w].phase.LoadedRun?
  {
    SetWorker(s, w, Loaded(s.workers[w].phase.run, s.jobs[s.workers[w].job].status))
  }

  function ReadCrashedJob(s: State, w: int): State
    requires HasWorker(s, w) && s.workers[w].phase.CrashLoadedRun?
  {
    SetWorker(s, w, CrashLoaded(s.workers[w].phase.run, s.jobs[s.workers[w].job].status))
  }

  /** The worker's finally: semaphore.release(), then the thread is gone. */
  function EndWorker(s: State, w: int): State
    requires w in s.workers && 0 <= s.workers[w].pump < |s.pumps|
  {
    var p := s.workers[w].pump;
    s.(workers := s.workers - {w}, pumps := s.pumps[p := s.pumps[p].(free := s.pumps[p].free + 1)])
  }

  function Next(s: State, a: Action): State
    requires Enabled(s, a)
  {
    match a
    case QueueEdit(e) => s.(jobs := ApplyEdit(s.jobs, e))
    case CancelReadJob(c, job) => ReadJobForCancel(s, c, job)
    case CancelReadRun(c) => ReadRunForCancel(s, c)
    case CancelCommit(c) => CommitCancel(s, c)
    case StartPump(setting) => NewPump(s, setting)
    case Acquire(p) => TakePermit(s, p)
    case Claim(p) => ClaimHead(s, p)
    case ClaimFails(p) => Stop(s, p)
    case CreateRun(p) => AddRun(s, p)
    case CreateRunFails(p) => SetPhase(s, p, Abandoning(s.pumps[p].phase.job))
    case AbandonRead(p) => ReadAbandoned(s, p)
    case Abandon(p) => AbandonAndStop(s, p)
    case Spawn(p) => StartWorker(s, p)
    case LoadRun(w) => SetWorker(s, w, LoadedRun(s.runs[w].status))
    case LoadJob(w) => ReadJob(s, w)
    case Begin(w) => BeginExecution(s, w)
    case Finish(w, outcome) => ApplyOutcome(s, w, outcome)
    case Crash(w) => SetWorker(s, w, Crashed)
    case FinalizeReadRun(w) => SetWorker(s, w, CrashLoadedRun(s.runs[w].status))
    case FinalizeReadJob(w) => ReadCrashedJob(s, w)
    case Finalize(w) => FinalizeCrashed(s, w)
    case Release(w) => EndWorker(s, w)
    case AppCrash => s.(up := false, pumps := [], workers := map[], cancels := map[])
    case Recover => RecoverOrphans(s)
  }

  lemma ClaimedHeadExists(jobs: Table)
    ensures Queue(jobs, Immediate) != [] ==> IsQueued(jobs, Immediate, Queue(jobs, Immediate)[0])
  {
    QueueListsRows(jobs, Immediate);
  }

  /** Run a sequence of steps; None when one of them is not enabled. */
  function Exec(s: State, trace: seq<Action>): Option<State>
    decreases |trace|
  {
    if trace == [] then Some(s)
    else if Enabled(s, trace[0]) then Exec(Next(s, trace[0]), trace[1..])
    else None
  }

  ghost predicate Reachable(s: State) {
    exists trace :: Exec(INITIAL, trace) == Some(s)
  }
}
