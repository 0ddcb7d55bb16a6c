/**
  The semaphore of each pump_once call conserves its permits: every path (queue empty, claim
  error, worker crash, normal end) gives back exactly the permit it took.
 */
module Permits {
  import opened Wrappers
  import opened Protocol
  import opened Ownership

  /** The worker threads a pump has started and that have not ended. */
  function WorkersOf(s: State, p: int): set<int> {
    set w | w in s.workers && s.workers[w].pump == p
  }

  /** Permits the pump itself holds. */
  function Held(phase: PumpPhase): int {
    match phase
    case Waiting => 0
    case Stopped => 0
    case _ => 1
  }

  predicate Conserved(s: State, p: int)
    requires 0 <= p < |s.pumps|
  {
    && s.pumps[p].cap >= 1 && s.pumps[p].free >= 0
    && s.pumps[p].free + |WorkersOf(s, p)| + Held(s.pumps[p].phase) == s.pumps[p].cap
  }

  predicate PermitsConserved(s: State) {
    forall p :: 0 <= p < |s.pumps| ==> Conserved(s, p)
  }

  /** Steps that neither start nor end a thread move a permit at most between pool and pump. */
  lemma SameWorkers(s: State, t: State, p: int)
    requires forall w ::
               (w in t.workers <==> w in s.workers) && (w in s.workers ==> t.workers[w].pump == s.workers[w].pump)
    ensures WorkersOf(t, p) == WorkersOf(s, p)
  {
    assert forall w :: w in t.workers && t.workers[w].pump == p <==> w in s.workers && s.workers[w].pump == p;
  }

  lemma AddsOne(s: State, t: State, run: int, p: int, p': int)
    requires run !in s.workers && run in t.workers && t.workers[run].pump == p
    requires forall w :: w != run ==> (w in t.workers <==> w in s.workers)
    requires forall w :: w in s.workers ==> t.workers[w].pump == s.workers[w].pump
    ensures |WorkersOf(t, p')| == |WorkersOf(s, p')| + if p' == p then 1 else 0
  {
    var before, after := WorkersOf(s, p'), WorkersOf(t, p');
    assert forall w :: w != run ==> (w in after <==> w in before);
    assert run !in before && (run in after <==> p' == p);
    if p' == p {
      assert after == before + {run};
    } else {
      assert after == before;
    }
  }

  lemma SpawnConserves(s: State, p: int, p': int)
    requires Inv(s) && PermitsConserved(s) && Enabled(s, Spawn(p)) && 0 <= p' < |s.pumps|
    ensures Conserved(StartWorker(s, p), p')
  {
    assert s.pumps[p].phase.run !in s.workers by { assert PumpOk(s, s.pumps[p].phase); }
    assert Conserved(s, p');
    AddsOne(s, StartWorker(s, p), s.pumps[p].phase.run, p, p');
  }

  lemma ReleaseConserves(s: State, w: int, p': int)
    requires Inv(s) && PermitsConserved(s) && Enabled(s, Release(w)) && 0 <= p' < |s.pumps|
    ensures Conserved(EndWorker(s, w), p')
  {
    var t := EndWorker(s, w);
    assert Conserved(s, p');
    if p' == s.workers[w].pump {
      assert WorkersOf(t, p') == WorkersOf(s, p') - {w};
      assert w in WorkersOf(s, p');
    } else {
      assert WorkersOf(t, p') == WorkersOf(s, p');
    }
  }

  lemma NewPumpConserves(s: State, setting: Option<int>, p': int)
    requires Inv(s) && PermitsConserved(s) && 0 <= p' <= |s.pumps|
    ensures Conserved(NewPump(s, setting), p')
  {
    SameWorkers(s, NewPump(s, setting), p');
    if p' < |s.pumps| {
      assert Conserved(s, p');
    } else {
      assert forall w :: w in s.workers ==> s.workers[w].pump < |s.pumps|;
      assert WorkersOf(s, p') == {};
      assert |WorkersOf(s, p')| == 0;
    }
  }

  lemma QuietThread(s: State, a: Action, w: int)
    requires Enabled(s, a) && !a.Spawn? && !a.Release? && !a.AppCrash?
    ensures var t := Next(s, a);
            (w in t.workers <==> w in s.workers) && (w in s.workers ==> t.workers[w].pump == s.workers[w].pump)
  {
  }

  /** Steps that start or end no thread leave what a pump has, free or held, as it is. */
  lemma QuietPump(s: State, a: Action, p: int)
    requires Enabled(s, a) && 0 <= p < |s.pumps|
    requires !a.Spawn? && !a.Release? && !a.StartPump? && !a.AppCrash? && !a.Recover?
    ensures var t := Next(s, a);
            && |t.pumps| == |s.pumps| && t.pumps[p].cap == s.pumps[p].cap
            && t.pumps[p].free + Held(t.pumps[p].phase) == s.pumps[p].free + Held(s.pumps[p].phase)
            && (s.pumps[p].free >= 0 ==> t.pumps[p].free >= 0)
  {
  }

  lemma QuietStepConserves(s: State, a: Action, p: int)
    requires Inv(s) && Enabled(s, a) && 0 <= p < |s.pumps| && Conserved(s, p)
    requires !a.Spawn? && !a.Release? && !a.StartPump? && !a.AppCrash? && !a.Recover?
    ensures |Next(s, a).pumps| == |s.pumps| && Conserved(Next(s, a), p)
  {
    var t := Next(s, a);
    QuietPump(s, a, p);
    forall w
      ensures (w in t.workers <==> w in s.workers) && (w in s.workers ==> t.workers[w].pump == s.workers[w].pump)
    {
      QuietThread(s, a, w);
    }
    SameWorkers(s, t, p);
  }

  lemma StepConservesAt(s: State, a: Action, p: int)
    requires Inv(s) && PermitsConserved(s) && Enabled(s, a) && 0 <= p < |Next(s, a).pumps|
    ensures Conserved(Next(s, a), p)
  {
    if a.Spawn? {
      SpawnConserves(s, a.p, p);
    } else if a.Release? {
      ReleaseConserves(s, a.w, p);
    } else if a.StartPump? {
      NewPumpConserves(s, a.setting, p);
    } else if !a.AppCrash? && !a.Recover? {
      QuietStepConserves(s, a, p);
    }
  }

  lemma StepConserves(s: State, a: Action)
    requires Inv(s) && PermitsConserved(s) && Enabled(s, a)
    ensures PermitsConserved(Next(s, a))
  {
    forall p | 0 <= p < |Next(s, a).pumps| ensures Conserved(Next(s, a), p) {
      StepConservesAt(s, a, p);
    }
  }

  lemma {:induction false} ExecConserves(s: State, trace: seq<Action>)
    requires Inv(s) && PermitsConserved(s) && Exec(s, trace).Some?
    ensures PermitsConserved(Exec(s, trace).value)
    decreases |trace|
  {
    if trace != [] {
      StepConserves(s, trace[0]);
      StepKeepsInv(s, trace[0]);
      ExecConserves(Next(s, trace[0]), trace[1..]);
    }
  }

  /**
    In every reachable state, for every pump: free permits + live worker threads of this pump
    + the one the pump holds = cap.  So at most cap reviews of one pump run at a time.
   */
  lemma PermitConservation(s: State, p: int)
    requires Reachable(s) && 0 <= p < |s.pumps|
    ensures s.pumps[p].free + |WorkersOf(s, p)| + Held(s.pumps[p].phase) == s.pumps[p].cap
    ensures 1 <= s.pumps[p].cap && 0 <= s.pumps[p].free && |WorkersOf(s, p)| <= s.pumps[p].cap
  {
    var trace :| Exec(INITIAL, trace) == Some(s);
    ExecConserves(INITIAL, trace);
    assert Conserved(s, p);
  }

  /** The BoundedSemaphore never refuses a release: below cap whenever a permit comes back. */
  lemma ReleasesNeverOverflow(s: State, a: Action, p: int)
    requires Reachable(s) && Enabled(s, a) && 0 <= p < |s.pumps| && p < |Next(s, a).pumps|
    requires Next(s, a).pumps[p].free > s.pumps[p].free
    ensures s.pumps[p].free < s.pumps[p].cap
    ensures Next(s, a).pumps[p].free == s.pumps[p].free + 1
  {
    PermitConservation(s, p);
    if a.Release? {
      assert a.w in WorkersOf(s, s.workers[a.w].pump);
    }
  }

  /** A stopped pump whose workers have ended has every permit back. */
  lemma AllPermitsComeBack(s: State, p: int)
    requires Reachable(s) && 0 <= p < |s.pumps|
    requires s.pumps[p].phase.Stopped? && WorkersOf(s, p) == {}
    ensures s.pumps[p].free == s.pumps[p].cap
  {
    PermitConservation(s, p);
  }

  /** The worker's next step, whatever its phase. */
  function WorkerStep(s: State, w: int): Action
    requires w in s.workers
  {
    match s.workers[w].phase
    case Spawned => LoadRun(w)
    case LoadedRun(_) => LoadJob(w)
    case Loaded(_, _) => Begin(w)
    case Executing => Finish(w, Outcome(0, false))
    case Crashed => FinalizeReadRun(w)
    case CrashLoadedRun(_) => FinalizeReadJob(w)
    case CrashLoaded(_, _) => Finalize(w)
    case Settled => Release(w)
    case Finalized => Release(w)
  }

  lemma Pick(ws: set<int>) returns (w: int)
    requires |ws| > 0
    ensures w in ws
  {
    assert (forall w :: w !in ws) ==> ws == {};
    w :| w in ws;
  }

  /** A pump at its semaphore is never deadlocked: a permit is free or one of its workers can move. */
  lemma WaitingPumpIsNotDeadlocked(s: State, p: int)
    requires Reachable(s) && s.up && 0 <= p < |s.pumps| && s.pumps[p].phase.Waiting?
    ensures Enabled(s, Acquire(p)) || exists w :: w in WorkersOf(s, p) && Enabled(s, WorkerStep(s, w))
  {
    ReachableInv(s);
    PermitConservation(s, p);
    if s.pumps[p].free == 0 {
      var w := Pick(WorkersOf(s, p));
      assert Enabled(s, WorkerStep(s, w));
    }
  }
}
