/**
  In every reachable state, over every interleaving: each job that is claimed or running and
  each run that is running has exactly one live owner, and each job has at most one run.
 */
module Ownership {
  import opened Wrappers
  import opened JobQueue
  import opened Protocol
  import QueueRefinement

  // ---------------------------------------------------------------- owners

  datatype Owner = PumpOwner(p: int) | WorkerOwner(w: int)

  function PumpJob(phase: PumpPhase): Option<int> {
    match phase
    case ClaimedJob(job) => Some(job)
    case Abandoning(job) => Some(job)
    case AbandonLoaded(job, _) => Some(job)
    case CreatedRun(job, _) => Some(job)
    case _ => None
  }

  predicate PumpOwns(s: State, p: int, job: int) {
    0 <= p < |s.pumps| && PumpJob(s.pumps[p].phase) == Some(job)
  }

  predicate WorkerOwns(s: State, w: int, job: int) {
    w in s.workers && s.workers[w].job == job && Live(s.workers[w].phase)
  }

  predicate OwnsJob(s: State, o: Owner, job: int) {
    match o
    case PumpOwner(p) => PumpOwns(s, p, job)
    case WorkerOwner(w) => WorkerOwns(s, w, job)
  }

  predicate OwnsRun(s: State, o: Owner, run: int) {
    match o
    case PumpOwner(p) => 0 <= p < |s.pumps| && s.pumps[p].phase.CreatedRun? && s.pumps[p].phase.run == run
    case WorkerOwner(w) => w == run && w in s.workers && Live(s.workers[w].phase)
  }

  // ---------------------------------------------------------------- the invariant

  predicate Waits(status: JobStatus) {
    status == Claimed || status == Cancelled
  }

  /** Runs point at jobs that left the queue, and no two runs at the same job. */
  ghost predicate RunsOk(s: State) {
    && (forall r :: 0 <= r < |s.runs| ==>
          0 <= s.runs[r].job < |s.jobs| && s.jobs[s.runs[r].job].status != Queued)
    && (forall r, r' :: 0 <= r < |s.runs| && 0 <= r' < |s.runs| && s.runs[r].job == s.runs[r'].job ==> r == r')
  }

  predicate RunOpen(status: RunStatus) {
    status == RunRunning || status == RunError
  }

  ghost predicate PumpOk(s: State, phase: PumpPhase) {
    match phase
    case CreatedRun(job, run) =>
      && 0 <= job < |s.jobs| && Waits(s.jobs[job].status)
      && 0 <= run < |s.runs| && s.runs[run].job == job && RunOpen(s.runs[run].status)
      && run !in s.workers
    case ClaimedJob(job) =>
      && 0 <= job < |s.jobs| && Waits(s.jobs[job].status)
      && (forall r :: 0 <= r < |s.runs| ==> s.runs[r].job != job)
    case Abandoning(job) =>
      && 0 <= job < |s.jobs| && Waits(s.jobs[job].status)
      && (forall r :: 0 <= r < |s.runs| ==> s.runs[r].job != job)
    case AbandonLoaded(job, seen) =>
      && 0 <= job < |s.jobs| && Waits(s.jobs[job].status)
      && (seen != Claimed ==> s.jobs[job].status == Cancelled)
      && (forall r :: 0 <= r < |s.runs| ==> s.runs[r].job != job)
    case _ => true
  }

  predicate Apart(a: PumpPhase, b: PumpPhase) {
    PumpJob(a).None? || PumpJob(a) != PumpJob(b)
  }

  ghost predicate PumpsOk(s: State) {
    && (forall p :: 0 <= p < |s.pumps| ==> PumpOk(s, s.pumps[p].phase))
    && (forall p, p' :: 0 <= p < p' < |s.pumps| ==> Apart(s.pumps[p].phase, s.pumps[p'].phase))
  }

  /** Once its worker crashed a run only ever ends. */
  predicate RunSeenOk(run: RunStatus, seen: RunStatus) {
    if seen == RunRunning then RunOpen(run) else run != RunRunning
  }

  /** What a worker's phase says about its two rows. */
  predicate WorkerOk(job: JobStatus, run: RunStatus, phase: WorkerPhase) {
    match phase
    case Spawned => Waits(job) && RunOpen(run)
    case LoadedRun(seen) => Waits(job) && RunOpen(run) && RunOpen(seen)
    case Loaded(seenRun, seenJob) => Waits(job) && RunOpen(run) && RunOpen(seenRun) && Waits(seenJob)
    case Executing => (job == Running || job == Cancelled) && RunOpen(run)
    case Crashed => job != Queued
    case CrashLoadedRun(seenRun) => job != Queued && RunSeenOk(run, seenRun)
    case CrashLoaded(seenRun, seenJob) =>
      && RunSeenOk(run, seenRun)
      && (if InFlight(seenJob) then InFlight(job) || job == Cancelled else Terminal(job))
    case Settled => Terminal(job) && run != RunRunning
    case Finalized => Terminal(job) && run != RunRunning
  }

  ghost predicate WorkersOk(s: State) {
    forall w :: w in s.workers ==>
      && 0 <= w < |s.runs| && 0 <= s.workers[w].pump < |s.pumps|
      && 0 <= s.workers[w].job < |s.jobs| && s.runs[w].job == s.workers[w].job
      && WorkerOk(s.jobs[s.workers[w].job].status, s.runs[w].status, s.workers[w].phase)
  }

  ghost predicate CancelOk(s: State, view: Canceller) {
    && 0 <= view.job < |s.jobs|
    && match view
       case SawJob(job, status) => !Terminal(status) && (InFlight(status) ==> s.jobs[job].status != Queued)
       case SawRun(job, run) =>
         && s.jobs[job].status != Queued
         && (run.Some? ==> 0 <= run.value < |s.runs| && s.runs[run.value].job == job)
  }

  ghost predicate CancelsOk(s: State) {
    forall c :: c in s.cancels ==> CancelOk(s, s.cancels[c])
  }

  ghost predicate JobsOwned(s: State) {
    forall j :: 0 <= j < |s.jobs| && InFlight(s.jobs[j].status) ==> exists o :: OwnsJob(s, o, j)
  }

  ghost predicate RunsOwned(s: State) {
    forall r :: 0 <= r < |s.runs| && s.runs[r].status == RunRunning ==> exists o :: OwnsRun(s, o, r)
  }

  ghost predicate RowsOk(s: State) {
    RunsOk(s) && PumpsOk(s) && WorkersOk(s) && CancelsOk(s)
  }

  ghost predicate Inv(s: State) {
    && RowsOk(s)
    && (if s.up then JobsOwned(s) && RunsOwned(s)
        else s.pumps == [] && s.workers == map[] && s.cancels == map[])
  }

  // ---------------------------------------------------------------- preservation

  /**
    Ownership carries over a step when every old owner keeps what is still in flight, except
    possibly job `job` and run `run`, which `owner` owns afterwards.
   */
  lemma OwnersCarryOver(s: State, s': State, owner: Owner, job: int, run: int)
    requires JobsOwned(s) && RunsOwned(s)
    requires forall j :: 0 <= j < |s'.jobs| && InFlight(s'.jobs[j].status) ==>
               if j == job then OwnsJob(s', owner, job)
               else j < |s.jobs| && InFlight(s.jobs[j].status)
                    && forall o :: OwnsJob(s, o, j) ==> OwnsJob(s', o, j)
    requires forall r :: 0 <= r < |s'.runs| && s'.runs[r].status == RunRunning ==>
               if r == run then OwnsRun(s', owner, run)
               else r < |s.runs| && s.runs[r].status == RunRunning
                    && forall o :: OwnsRun(s, o, r) ==> OwnsRun(s', o, r)
    ensures JobsOwned(s') && RunsOwned(s')
  {
    forall j | 0 <= j < |s'.jobs| && InFlight(s'.jobs[j].status) ensures exists o :: OwnsJob(s', o, j) {
      if j != job {
        var o :| OwnsJob(s, o, j);
        assert OwnsJob(s', o, j);
      }
    }
    forall r | 0 <= r < |s'.runs| && s'.runs[r].status == RunRunning ensures exists o :: OwnsRun(s', o, r) {
      if r != run {
        var o :| OwnsRun(s, o, r);
        assert OwnsRun(s', o, r);
      }
    }
  }

  /** A commit that writes one job row and the run rows of that job disturbs nothing else. */
  lemma RowWriteKeepsRows(s: State, s': State, job: int)
    requires RowsOk(s) && 0 <= job < |s.jobs|
    requires |s'.jobs| == |s.jobs| && s'.jobs[job].status != Queued
    requires forall j :: 0 <= j < |s.jobs| && j != job ==> s'.jobs[j] == s.jobs[j]
    requires |s'.runs| == |s.runs|
    requires forall r :: 0 <= r < |s.runs| ==>
               s'.runs[r].job == s.runs[r].job && (s.runs[r].job != job ==> s'.runs[r] == s.runs[r])
    requires s'.pumps == s.pumps
    requires forall p :: 0 <= p < |s.pumps| && PumpJob(s.pumps[p].phase) == Some(job) ==> PumpOk(s', s.pumps[p].phase)
    requires s'.workers.Keys == s.workers.Keys
    requires forall w :: w in s.workers ==>
               && s'.workers[w].job == s.workers[w].job && s'.workers[w].pump == s.workers[w].pump
               && (s.workers[w].job != job ==> s'.workers[w] == s.workers[w])
               && (s.workers[w].job == job ==>
                     WorkerOk(s'.jobs[job].status, s'.runs[w].status, s'.workers[w].phase))
    requires forall c :: c in s'.cancels ==> c in s.cancels && s'.cancels[c] == s.cancels[c]
    ensures RowsOk(s')
  {
    forall p | 0 <= p < |s'.pumps| ensures PumpOk(s', s'.pumps[p].phase) {
      assert PumpOk(s, s.pumps[p].phase);
    }
    forall c | c in s'.cancels ensures CancelOk(s', s'.cancels[c]) {
      assert CancelOk(s, s.cancels[c]);
    }
  }

  /** A worker's job belongs to no pump and to no other worker. */
  lemma WorkerOwnsAlone(s: State, w: int)
    requires RowsOk(s) && w in s.workers
    ensures forall p :: 0 <= p < |s.pumps| ==> PumpJob(s.pumps[p].phase) != Some(s.workers[w].job)
    ensures forall w' :: w' in s.workers && s.workers[w'].job == s.workers[w].job ==> w' == w
  {
    forall p | 0 <= p < |s.pumps| ensures PumpJob(s.pumps[p].phase) != Some(s.workers[w].job) {
      assert PumpOk(s, s.pumps[p].phase);
    }
  }

  lemma EditKeepsRows(s: State, e: Edit)
    requires RowsOk(s)
    requires Names(s.jobs, e)
    ensures RowsOk(s.(jobs := ApplyEdit(s.jobs, e)))
  {
    QueueRefinement.EditKeepsStatuses(s.jobs, e);
  }

  lemma EditKeepsInv(s: State, e: Edit)
    requires Inv(s) && s.up
    requires Names(s.jobs, e)
    ensures Inv(s.(jobs := ApplyEdit(s.jobs, e)))
  {
    QueueRefinement.EditKeepsStatuses(s.jobs, e);
    EditKeepsRows(s, e);
    OwnersCarryOver(s, s.(jobs := ApplyEdit(s.jobs, e)), PumpOwner(0), -1, -1);
  }

  lemma CancelReadJobKeepsInv(s: State, c: int, job: int)
    requires Inv(s) && s.up
    requires 0 <= job < |s.jobs|
    ensures Inv(ReadJobForCancel(s, c, job))
  {
    OwnersCarryOver(s, ReadJobForCancel(s, c, job), PumpOwner(0), -1, -1);
  }

  lemma CancelReadRunKeepsInv(s: State, c: int)
    requires Inv(s) && s.up
    requires c in s.cancels && s.cancels[c].SawJob? && InFlight(s.cancels[c].status)
    ensures Inv(ReadRunForCancel(s, c))
  {
    OwnersCarryOver(s, ReadRunForCancel(s, c), PumpOwner(0), -1, -1);
  }

  lemma CancelCommitKeepsRows(s: State, c: int)
    requires RowsOk(s)
    requires CanCommit(s, c)
    ensures RowsOk(CommitCancel(s, c))
  {
    RowWriteKeepsRows(s, CommitCancel(s, c), s.cancels[c].job);
  }

  lemma CancelCommitKeepsInv(s: State, c: int)
    requires Inv(s) && s.up
    requires CanCommit(s, c)
    ensures Inv(CommitCancel(s, c))
  {
    CancelCommitKeepsRows(s, c);
    OwnersCarryOver(s, CommitCancel(s, c), PumpOwner(0), -1, -1);
  }

  lemma StartPumpKeepsInv(s: State, setting: Option<int>)
    requires Inv(s) && s.up
    ensures Inv(NewPump(s, setting))
  {
    OwnersCarryOver(s, NewPump(s, setting), PumpOwner(0), -1, -1);
  }

  lemma AcquireKeepsInv(s: State, p: int)
    requires Inv(s) && s.up
    requires 0 <= p < |s.pumps| && s.pumps[p].phase.Waiting?
    ensures Inv(TakePermit(s, p))
  {
    OwnersCarryOver(s, TakePermit(s, p), PumpOwner(0), -1, -1);
  }

  lemma StopKeepsInv(s: State, p: int)
    requires Inv(s) && s.up
    requires 0 <= p < |s.pumps| && s.pumps[p].phase.Holding?
    ensures Inv(Stop(s, p))
  {
    OwnersCarryOver(s, Stop(s, p), PumpOwner(0), -1, -1);
  }

  lemma ClaimKeepsRows(s: State, p: int)
    requires RowsOk(s)
    requires 0 <= p < |s.pumps| && s.pumps[p].phase.Holding? && Queue(s.jobs, Immediate) != []
    ensures RowsOk(ClaimHead(s, p))
  {
    ClaimedHeadExists(s.jobs);
  }

  lemma ClaimKeepsInv(s: State, p: int)
    requires Inv(s) && s.up
    requires 0 <= p < |s.pumps| && s.pumps[p].phase.Holding? && Queue(s.jobs, Immediate) != []
    ensures Inv(ClaimHead(s, p))
  {
    ClaimedHeadExists(s.jobs);
    ClaimKeepsRows(s, p);
    OwnersCarryOver(s, ClaimHead(s, p), PumpOwner(p), Queue(s.jobs, Immediate)[0], -1);
  }

  lemma CreateRunKeepsRows(s: State, p: int)
    requires RowsOk(s)
    requires 0 <= p < |s.pumps| && s.pumps[p].phase.ClaimedJob?
    ensures RowsOk(AddRun(s, p))
  {
    var t := AddRun(s, p);
    assert PumpOk(s, s.pumps[p].phase);
    forall q | 0 <= q < |t.pumps| ensures PumpOk(t, t.pumps[q].phase) {
      assert PumpOk(s, s.pumps[q].phase);
      assert q != p ==> PumpJob(s.pumps[q].phase) != PumpJob(s.pumps[p].phase);
    }
  }

  lemma CreateRunKeepsInv(s: State, p: int)
    requires Inv(s) && s.up
    requires 0 <= p < |s.pumps| && s.pumps[p].phase.ClaimedJob?
    ensures Inv(AddRun(s, p))
  {
    CreateRunKeepsRows(s, p);
    OwnersCarryOver(s, AddRun(s, p), PumpOwner(p), s.pumps[p].phase.job, |s.runs|);
  }

  lemma CreateRunFailsKeepsInv(s: State, p: int)
    requires Inv(s) && s.up
    requires 0 <= p < |s.pumps| && s.pumps[p].phase.ClaimedJob?
    ensures Inv(SetPhase(s, p, Abandoning(s.pumps[p].phase.job)))
  {
    OwnersCarryOver(s, SetPhase(s, p, Abandoning(s.pumps[p].phase.job)), PumpOwner(0), -1, -1);
  }

  lemma AbandonReadKeepsInv(s: State, p: int)
    requires Inv(s) && s.up
    requires 0 <= p < |s.pumps| && s.pumps[p].phase.Abandoning?
    ensures Inv(ReadAbandoned(s, p))
  {
    assert PumpOk(s, s.pumps[p].phase);
    OwnersCarryOver(s, ReadAbandoned(s, p), PumpOwner(0), -1, -1);
  }

  lemma AbandonKeepsRows(s: State, p: int)
    requires RowsOk(s)
    requires 0 <= p < |s.pumps| && s.pumps[p].phase.AbandonLoaded?
    ensures RowsOk(AbandonAndStop(s, p))
  {
  }

  lemma AbandonKeepsInv(s: State, p: int)
    requires Inv(s) && s.up
    requires 0 <= p < |s.pumps| && s.pumps[p].phase.AbandonLoaded?
    ensures Inv(AbandonAndStop(s, p))
  {
    assert PumpOk(s, s.pumps[p].phase);
    AbandonKeepsRows(s, p);
    OwnersCarryOver(s, AbandonAndStop(s, p), PumpOwner(0), -1, -1);
  }

  lemma SpawnKeepsRows(s: State, p: int)
    requires RowsOk(s)
    requires 0 <= p < |s.pumps| && s.pumps[p].phase.CreatedRun?
    ensures RowsOk(StartWorker(s, p))
  {
  }

  lemma SpawnKeepsInv(s: State, p: int)
    requires Inv(s) && s.up
    requires 0 <= p < |s.pumps| && s.pumps[p].phase.CreatedRun?
    ensures Inv(StartWorker(s, p))
  {
    SpawnKeepsRows(s, p);
    var phase := s.pumps[p].phase;
    OwnersCarryOver(s, StartWorker(s, p), WorkerOwner(phase.run), phase.job, phase.run);
  }

  lemma LoadRunKeepsRows(s: State, w: int)
    requires RowsOk(s)
    requires HasWorker(s, w) && s.workers[w].phase.Spawned?
    ensures RowsOk(SetWorker(s, w, LoadedRun(s.runs[w].status)))
  {
    WorkerOwnsAlone(s, w);
    RowWriteKeepsRows(s, SetWorker(s, w, LoadedRun(s.runs[w].status)), s.workers[w].job);
  }

  lemma LoadRunKeepsInv(s: State, w: int)
    requires Inv(s) && s.up
    requires HasWorker(s, w) && s.workers[w].phase.Spawned?
    ensures Inv(SetWorker(s, w, LoadedRun(s.runs[w].status)))
  {
    LoadRunKeepsRows(s, w);
    OwnersCarryOver(s, SetWorker(s, w, LoadedRun(s.runs[w].status)), PumpOwner(0), -1, -1);
  }

  lemma LoadJobKeepsRows(s: State, w: int)
    requires RowsOk(s)
    requires HasWorker(s, w) && s.workers[w].phase.LoadedRun?
    ensures RowsOk(ReadJob(s, w))
  {
    WorkerOwnsAlone(s, w);
    RowWriteKeepsRows(s, ReadJob(s, w), s.workers[w].job);
  }

  lemma LoadJobKeepsInv(s: State, w: int)
    requires Inv(s) && s.up
    requires HasWorker(s, w) && s.workers[w].phase.LoadedRun?
    ensures Inv(ReadJob(s, w))
  {
    LoadJobKeepsRows(s, w);
    OwnersCarryOver(s, ReadJob(s, w), PumpOwner(0), -1, -1);
  }

  lemma BeginKeepsRows(s: State, w: int)
    requires RowsOk(s)
    requires HasWorker(s, w) && s.workers[w].phase.Loaded?
    ensures RowsOk(BeginExecution(s, w))
  {
    WorkerOwnsAlone(s, w);
    RowWriteKeepsRows(s, BeginExecution(s, w), s.workers[w].job);
  }

  lemma BeginKeepsInv(s: State, w: int)
    requires Inv(s) && s.up
    requires HasWorker(s, w) && s.workers[w].phase.Loaded?
    ensures Inv(BeginExecution(s, w))
  {
    BeginKeepsRows(s, w);
    OwnersCarryOver(s, BeginExecution(s, w), WorkerOwner(w), s.workers[w].job, w);
  }

  lemma FinishKeepsRows(s: State, w: int, outcome: Outcome)
    requires RowsOk(s)
    requires HasWorker(s, w) && s.workers[w].phase.Executing?
    ensures RowsOk(ApplyOutcome(s, w, outcome))
  {
    WorkerOwnsAlone(s, w);
    RowWriteKeepsRows(s, ApplyOutcome(s, w, outcome), s.workers[w].job);
  }

  lemma FinishKeepsInv(s: State, w: int, outcome: Outcome)
    requires Inv(s) && s.up
    requires HasWorker(s, w) && s.workers[w].phase.Executing?
    ensures Inv(ApplyOutcome(s, w, outcome))
  {
    FinishKeepsRows(s, w, outcome);
    OwnersCarryOver(s, ApplyOutcome(s, w, outcome), PumpOwner(0), -1, -1);
  }

  lemma CrashKeepsRows(s: State, w: int)
    requires RowsOk(s)
    requires HasWorker(s, w)
    ensures RowsOk(SetWorker(s, w, Crashed))
  {
    WorkerOwnsAlone(s, w);
    RowWriteKeepsRows(s, SetWorker(s, w, Crashed), s.workers[w].job);
  }

  lemma CrashKeepsInv(s: State, w: int)
    requires Inv(s) && s.up
    requires HasWorker(s, w)
    ensures Inv(SetWorker(s, w, Crashed))
  {
    CrashKeepsRows(s, w);
    OwnersCarryOver(s, SetWorker(s, w, Crashed), PumpOwner(0), -1, -1);
  }

  lemma FinalizeReadRunKeepsRows(s: State, w: int)
    requires RowsOk(s)
    requires HasWorker(s, w) && s.workers[w].phase.Crashed?
    ensures RowsOk(SetWorker(s, w, CrashLoadedRun(s.runs[w].status)))
  {
    WorkerOwnsAlone(s, w);
    RowWriteKeepsRows(s, SetWorker(s, w, CrashLoadedRun(s.runs[w].status)), s.workers[w].job);
  }

  lemma FinalizeReadRunKeepsInv(s: State, w: int)
    requires Inv(s) && s.up
    requires HasWorker(s, w) && s.workers[w].phase.Crashed?
    ensures Inv(SetWorker(s, w, CrashLoadedRun(s.runs[w].status)))
  {
    FinalizeReadRunKeepsRows(s, w);
    OwnersCarryOver(s, SetWorker(s, w, CrashLoadedRun(s.runs[w].status)), PumpOwner(0), -1, -1);
  }

  lemma FinalizeReadJobKeepsRows(s: State, w: int)
    requires RowsOk(s)
    requires HasWorker(s, w) && s.workers[w].phase.CrashLoadedRun?
    ensures RowsOk(ReadCrashedJob(s, w))
  {
    WorkerOwnsAlone(s, w);
    RowWriteKeepsRows(s, ReadCrashedJob(s, w), s.workers[w].job);
  }

  lemma FinalizeReadJobKeepsInv(s: State, w: int)
    requires Inv(s) && s.up
    requires HasWorker(s, w) && s.workers[w].phase.CrashLoadedRun?
    ensures Inv(ReadCrashedJob(s, w))
  {
    FinalizeReadJobKeepsRows(s, w);
    OwnersCarryOver(s, ReadCrashedJob(s, w), PumpOwner(0), -1, -1);
  }

  lemma FinalizeKeepsRows(s: State, w: int)
    requires RowsOk(s)
    requires HasWorker(s, w) && s.workers[w].phase.CrashLoaded?
    ensures RowsOk(FinalizeCrashed(s, w))
  {
    WorkerOwnsAlone(s, w);
    RowWriteKeepsRows(s, FinalizeCrashed(s, w), s.workers[w].job);
  }

  lemma FinalizeKeepsInv(s: State, w: int)
    requires Inv(s) && s.up
    requires HasWorker(s, w) && s.workers[w].phase.CrashLoaded?
    ensures Inv(FinalizeCrashed(s, w))
  {
    FinalizeKeepsRows(s, w);
    OwnersCarryOver(s, FinalizeCrashed(s, w), PumpOwner(0), -1, -1);
  }

  lemma ReleaseKeepsRows(s: State, w: int)
    requires RowsOk(s)
    requires HasWorker(s, w) && Over(s.workers[w].phase)
    ensures RowsOk(EndWorker(s, w))
  {
  }

  lemma ReleaseKeepsInv(s: State, w: int)
    requires Inv(s) && s.up
    requires HasWorker(s, w) && Over(s.workers[w].phase)
    ensures Inv(EndWorker(s, w))
  {
    ReleaseKeepsRows(s, w);
    OwnersCarryOver(s, EndWorker(s, w), PumpOwner(0), -1, -1);
  }

  /** Recovery fails what is in flight, ends what is running and keeps every other status. */
  lemma RecoverStatuses(s: State)
    ensures var s' := RecoverOrphans(s);
            && |s'.jobs| == |s.jobs| && |s'.runs| == |s.runs|
            && (forall j :: 0 <= j < |s.jobs| ==>
                  s'.jobs[j].status == if InFlight(s.jobs[j].status) then Failed else s.jobs[j].status)
            && (forall r :: 0 <= r < |s.runs| ==>
                  && s'.runs[r].job == s.runs[r].job
                  && s'.runs[r].status == if s.runs[r].status == RunRunning then RunError else s.runs[r].status)
  {
    var failed := FailInFlight(s.jobs);
    QueueRefinement.EditKeepsStatuses(failed, Compact);
    assert ApplyEdit(failed, Compact) == CompactPositions(failed);
  }

  lemma RecoverKeepsInv(s: State)
    requires Inv(s) && !s.up
    ensures Inv(RecoverOrphans(s))
  {
    RecoverStatuses(s);
  }

  predicate ByPump(a: Action) {
    || a.Acquire? || a.Claim? || a.ClaimFails? || a.CreateRun? || a.CreateRunFails?
    || a.AbandonRead? || a.Abandon? || a.Spawn?
  }

  predicate ByWorker(a: Action) {
    a.LoadRun? || a.LoadJob? || a.Begin? || a.Finish? || a.Crash?
    || a.FinalizeReadRun? || a.FinalizeReadJob? || a.Finalize? || a.Release?
  }

  lemma PumpStepKeepsInv(s: State, a: Action)
    requires Inv(s) && Enabled(s, a) && ByPump(a)
    ensures Inv(Next(s, a))
  {
    match a
    case Acquire(p) => AcquireKeepsInv(s, p);
    case Claim(p) =>
      if Queue(s.jobs, Immediate) == [] { StopKeepsInv(s, p); } else { ClaimKeepsInv(s, p); }
    case ClaimFails(p) => StopKeepsInv(s, p);
    case CreateRun(p) => CreateRunKeepsInv(s, p);
    case CreateRunFails(p) => CreateRunFailsKeepsInv(s, p);
    case AbandonRead(p) => AbandonReadKeepsInv(s, p);
    case Abandon(p) => AbandonKeepsInv(s, p);
    case Spawn(p) => SpawnKeepsInv(s, p);
  }

  lemma WorkerStepKeepsInv(s: State, a: Action)
    requires Inv(s) && Enabled(s, a) && ByWorker(a)
    ensures Inv(Next(s, a))
  {
    match a
    case LoadRun(w) => LoadRunKeepsInv(s, w);
    case LoadJob(w) => LoadJobKeepsInv(s, w);
    case Begin(w) => BeginKeepsInv(s, w);
    case Finish(w, outcome) => FinishKeepsInv(s, w, outcome);
    case Crash(w) => CrashKeepsInv(s, w);
    case FinalizeReadRun(w) => FinalizeReadRunKeepsInv(s, w);
    case FinalizeReadJob(w) => FinalizeReadJobKeepsInv(s, w);
    case Finalize(w) => FinalizeKeepsInv(s, w);
    case Release(w) => ReleaseKeepsInv(s, w);
  }

  lemma OtherStepKeepsInv(s: State, a: Action)
    requires Inv(s) && Enabled(s, a) && !ByPump(a) && !ByWorker(a)
    ensures Inv(Next(s, a))
  {
    match a
    case QueueEdit(e) => EditKeepsInv(s, e);
    case CancelReadJob(c, job) => CancelReadJobKeepsInv(s, c, job);
    case CancelReadRun(c) => CancelReadRunKeepsInv(s, c);
    case CancelCommit(c) => CancelCommitKeepsInv(s, c);
    case StartPump(setting) => StartPumpKeepsInv(s, setting);
    case AppCrash =>
    case Recover => RecoverKeepsInv(s);
  }

  /** Every step of every thread and request keeps the invariant. */
  lemma StepKeepsInv(s: State, a: Action)
    requires Inv(s) && Enabled(s, a)
    ensures Inv(Next(s, a))
  {
    if ByPump(a) {
      PumpStepKeepsInv(s, a);
    } else if ByWorker(a) {
      WorkerStepKeepsInv(s, a);
    } else {
      OtherStepKeepsInv(s, a);
    }
  }

  lemma {:induction false} ExecKeepsInv(s: State, trace: seq<Action>)
    requires Inv(s) && Exec(s, trace).Some?
    ensures Inv(Exec(s, trace).value)
    decreases |trace|
  {
    if trace != [] {
      StepKeepsInv(s, trace[0]);
      ExecKeepsInv(Next(s, trace[0]), trace[1..]);
    }
  }

  lemma ReachableInv(s: State)
    requires Reachable(s)
    ensures Inv(s)
  {
    var trace :| Exec(INITIAL, trace) == Some(s);
    ExecKeepsInv(INITIAL, trace);
  }

  // ---------------------------------------------------------------- the theorems

  lemma PumpRunsApart(s: State)
    requires RowsOk(s)
    ensures forall p :: 0 <= p < |s.pumps| && s.pumps[p].phase.CreatedRun? ==> s.pumps[p].phase.run !in s.workers
    ensures forall p, p' | 0 <= p < p' < |s.pumps| && s.pumps[p].phase.CreatedRun? && s.pumps[p'].phase.CreatedRun? ::
              s.pumps[p].phase.run != s.pumps[p'].phase.run
  {
    forall p | 0 <= p < |s.pumps| && s.pumps[p].phase.CreatedRun?
      ensures s.pumps[p].phase.run !in s.workers && 0 <= s.pumps[p].phase.run < |s.runs|
      ensures PumpJob(s.pumps[p].phase) == Some(s.runs[s.pumps[p].phase.run].job)
    {
      assert PumpOk(s, s.pumps[p].phase);
    }
  }

  lemma OwnersAreUnique(s: State)
    requires Inv(s)
    ensures forall o, o', j :: OwnsJob(s, o, j) && OwnsJob(s, o', j) ==> o == o'
    ensures forall o, o', r :: OwnsRun(s, o, r) && OwnsRun(s, o', r) ==> o == o'
  {
    forall o, o', j | OwnsJob(s, o, j) && OwnsJob(s, o', j) ensures o == o' {
      if o.WorkerOwner? { WorkerOwnsAlone(s, o.w); }
      if o'.WorkerOwner? { WorkerOwnsAlone(s, o'.w); }
    }
    PumpRunsApart(s);
  }

  /**
    Ownership over all interleavings: in every reachable state of a live process each claimed
    or running job and each running run has exactly one live owner.
   */
  lemma ExactlyOneOwner(s: State)
    requires Reachable(s) && s.up
    ensures forall j :: 0 <= j < |s.jobs| && InFlight(s.jobs[j].status) ==>
              exists o :: OwnsJob(s, o, j) && forall o' :: OwnsJob(s, o', j) ==> o' == o
    ensures forall r :: 0 <= r < |s.runs| && s.runs[r].status == RunRunning ==>
              exists o :: OwnsRun(s, o, r) && forall o' :: OwnsRun(s, o', r) ==> o' == o
  {
    ReachableInv(s);
    OwnersAreUnique(s);
  }

  /** Once pumps and workers stop, nothing is left in flight, whatever was cancelled meanwhile. */
  lemma QuiescenceLeavesNothingInFlight(s: State)
    requires Reachable(s) && s.up
    requires forall p :: 0 <= p < |s.pumps| ==> s.pumps[p].phase.Waiting? || s.pumps[p].phase.Stopped?
    requires s.workers == map[]
    ensures forall j :: 0 <= j < |s.jobs| ==> s.jobs[j].status == Queued || Terminal(s.jobs[j].status)
    ensures forall r :: 0 <= r < |s.runs| ==> s.runs[r].status != RunRunning
  {
    ReachableInv(s);
  }

  /** No two run rows belong to the same job: a job is claimed at most once, ever. */
  lemma AtMostOneRunPerJob(s: State)
    requires Reachable(s)
    ensures forall r, r' :: 0 <= r < r' < |s.runs| ==> s.runs[r].job != s.runs[r'].job
    ensures forall r :: 0 <= r < |s.runs| ==>
              0 <= s.runs[r].job < |s.jobs| && s.jobs[s.runs[r].job].status != Queued
  {
    ReachableInv(s);
  }

  /** The "run or job vanished" branch of _worker is dead: a worker always finds its two rows. */
  lemma WorkersFindTheirRows(s: State, w: int)
    requires Reachable(s) && w in s.workers
    ensures HasWorker(s, w) && s.runs[w].job == s.workers[w].job
  {
    ReachableInv(s);
  }
}
