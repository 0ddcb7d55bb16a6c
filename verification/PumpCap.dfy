/**
  What max_concurrent_reviews means for one pump_once call of app/scheduler/worker.py: how many
  permits it starts with, how many of its workers live at a time over every continuation, and
  that this many really can.
 */
module PumpCap {
  import opened Wrappers
  import opened JobQueue
  import opened Protocol
  import opened Permits
  import Lifecycle
  import Ownership
  import PumpDrain
  import QueueRefinement

  /** A pump starts at its semaphore, with as many permits as the setting says, and at least one. */
  lemma StartsWithTheSetting(s: State, setting: Option<int>)
    requires Enabled(s, StartPump(setting))
    ensures var t := Next(s, StartPump(setting));
            && t == s.(pumps := t.pumps) && |t.pumps| == |s.pumps| + 1 && t.pumps[..|s.pumps|] == s.pumps
            && t.pumps[|s.pumps|].phase == Waiting && t.pumps[|s.pumps|].started == []
            && t.pumps[|s.pumps|].cap == t.pumps[|s.pumps|].free
            && (forall n :: setting == Some(n) && n >= 1 ==> t.pumps[|s.pumps|].free == n)
            && ((setting.Some? ==> setting.value < 1) ==> t.pumps[|s.pumps|].free == 1)
  {
  }

  /** The process stays up. */
  predicate StaysUp(trace: seq<Action>) {
    forall k :: 0 <= k < |trace| ==> trace[k] != AppCrash
  }

  lemma StepKeepsCap(s: State, a: Action, p: int)
    requires Enabled(s, a) && a != AppCrash && HasPump(s, p)
    ensures HasPump(Next(s, a), p) && Next(s, a).pumps[p].cap == s.pumps[p].cap
  {
    if !a.Spawn? && !a.Release? && !a.StartPump? {
      QuietPump(s, a, p);
    }
  }

  lemma {:induction false} ExecKeepsCap(s: State, trace: seq<Action>, p: int)
    requires Exec(s, trace).Some? && StaysUp(trace) && HasPump(s, p)
    ensures HasPump(Exec(s, trace).value, p) && Exec(s, trace).value.pumps[p].cap == s.pumps[p].cap
    decreases |trace|
  {
    if trace != [] {
      assert trace[0] != AppCrash;
      StepKeepsCap(s, trace[0], p);
      ExecKeepsCap(Next(s, trace[0]), trace[1..], p);
    }
  }

  lemma {:induction false} ExecStaysReachable(s: State, trace: seq<Action>)
    requires Reachable(s) && Exec(s, trace).Some?
    ensures Reachable(Exec(s, trace).value)
    decreases |trace|
  {
    if trace != [] {
      Lifecycle.ReachableStep(s, trace[0]);
      ExecStaysReachable(Next(s, trace[0]), trace[1..]);
    }
  }

  /**
    From the start of a pump on, in every continuation without a crash of the process: at most
    as many of its workers are live as the setting says, or one when it says nothing or less.
   */
  lemma AtMostTheSetting(s: State, setting: Option<int>, trace: seq<Action>)
    requires Reachable(s) && Enabled(s, StartPump(setting)) && StaysUp(trace)
    requires Exec(Next(s, StartPump(setting)), trace).Some?
    ensures var t, p := Exec(Next(s, StartPump(setting)), trace).value, |s.pumps|;
            var live := set w | w in t.workers && t.workers[w].pump == p;
            && (forall n :: setting == Some(n) && n >= 1 ==> |live| <= n)
            && ((setting.Some? ==> setting.value < 1) ==> |live| <= 1)
  {
    var started := Next(s, StartPump(setting));
    StartsWithTheSetting(s, setting);
    Lifecycle.ReachableStep(s, StartPump(setting));
    ExecKeepsCap(started, trace, |s.pumps|);
    ExecStaysReachable(started, trace);
    var t := Exec(started, trace).value;
    PermitConservation(t, |s.pumps|);
    assert WorkersOf(t, |s.pumps|) == set w | w in t.workers && t.workers[w].pump == |s.pumps|;
  }

  // ---------------------------------------------------------------- the cap is reached

  /** The pump's way from its semaphore to a started worker and back. */
  function Round(p: int): seq<Action> {
    [Acquire(p), Claim(p), CreateRun(p), Spawn(p)]
  }

  lemma ExecCons(s: State, a: Action, rest: seq<Action>)
    requires Enabled(s, a)
    ensures Exec(s, [a] + rest) == Exec(Next(s, a), rest)
  {
    assert ([a] + rest)[1..] == rest;
  }

  lemma RoundEnabled(s: State, p: int)
    requires Reachable(s) && HasPump(s, p) && s.pumps[p].phase.Waiting? && s.pumps[p].free > 0
    requires Queue(s.jobs, Immediate) != []
    ensures Enabled(s, Acquire(p))
    ensures var s1 := TakePermit(s, p);
            && Enabled(s1, Claim(p))
            && var s2 := ClaimHead(s1, p);
               && Enabled(s2, CreateRun(p))
               && Enabled(AddRun(s2, p), Spawn(p))
  {
  }

  /** One round starts one worker from one permit and one queued job. */
  lemma OneRound(s: State, p: int) returns (t: State)
    requires Reachable(s) && HasPump(s, p) && s.pumps[p].phase.Waiting? && s.pumps[p].free > 0
    requires Queue(s.jobs, Immediate) != []
    ensures t == StartWorker(AddRun(ClaimHead(TakePermit(s, p), p), p), p)
    ensures Reachable(t) && HasPump(t, p) && t.pumps[p].phase.Waiting?
    ensures t.pumps[p].free == s.pumps[p].free - 1 && t.pumps[p].cap == s.pumps[p].cap
    ensures |Queue(t.jobs, Immediate)| == |Queue(s.jobs, Immediate)| - 1
  {
    RoundEnabled(s, p);
    var s1 := TakePermit(s, p);
    Lifecycle.ReachableStep(s, Acquire(p));
    var s2 := ClaimHead(s1, p);
    Lifecycle.ReachableStep(s1, Claim(p));
    PumpDrain.ClaimPops(s1.jobs);
    var s3 := AddRun(s2, p);
    Lifecycle.ReachableStep(s2, CreateRun(p));
    t := StartWorker(s3, p);
    Lifecycle.ReachableStep(s3, Spawn(p));
  }

  lemma RoundRuns(s: State, p: int, rest: seq<Action>)
    requires Reachable(s) && HasPump(s, p) && s.pumps[p].phase.Waiting? && s.pumps[p].free > 0
    requires Queue(s.jobs, Immediate) != []
    ensures var t := StartWorker(AddRun(ClaimHead(TakePermit(s, p), p), p), p);
            Exec(s, Round(p) + rest) == Exec(t, rest)
  {
    RoundEnabled(s, p);
    var s1 := TakePermit(s, p);
    var s2 := ClaimHead(s1, p);
    ExecCons(s, Acquire(p), [Claim(p)] + ([CreateRun(p)] + ([Spawn(p)] + rest)));
    ExecCons(s1, Claim(p), [CreateRun(p)] + ([Spawn(p)] + rest));
    ExecCons(s2, CreateRun(p), [Spawn(p)] + rest);
    ExecCons(AddRun(s2, p), Spawn(p), rest);
    assert Round(p) + rest == [Acquire(p)] + ([Claim(p)] + ([CreateRun(p)] + ([Spawn(p)] + rest)));
  }

  lemma StaysUpJoins(p: int, rest: seq<Action>)
    requires StaysUp(rest)
    ensures StaysUp(Round(p) + rest)
  {
    var round := Round(p);
    assert round[0] == Acquire(p) && round[1] == Claim(p) && round[2] == CreateRun(p) && round[3] == Spawn(p);
    forall k | 0 <= k < |round + rest| ensures (round + rest)[k] != AppCrash {
      if k >= 4 { assert (round + rest)[k] == rest[k - 4]; }
    }
  }

  /** As many rounds as there are free permits, when the queue is long enough. */
  lemma {:induction false} UseAllPermits(s: State, p: int, k: nat) returns (trace: seq<Action>)
    requires Reachable(s) && HasPump(s, p) && s.pumps[p].phase.Waiting?
    requires s.pumps[p].free == k <= |Queue(s.jobs, Immediate)|
    ensures StaysUp(trace) && Exec(s, trace).Some?
    ensures var t := Exec(s, trace).value;
            && Reachable(t) && HasPump(t, p) && t.pumps[p].phase.Waiting?
            && t.pumps[p].free == 0 && t.pumps[p].cap == s.pumps[p].cap
    decreases k
  {
    if k == 0 {
      trace := [];
    } else {
      var t := OneRound(s, p);
      var rest := UseAllPermits(t, p, k - 1);
      trace := Round(p) + rest;
      RoundRuns(s, p, rest);
      StaysUpJoins(p, rest);
    }
  }

  /** The bound is reached: with n jobs in the immediate queue a pump can have n live workers. */
  lemma TheSettingIsReached(s: State, n: nat) returns (trace: seq<Action>)
    requires Reachable(s) && s.up && 1 <= n <= |Queue(s.jobs, Immediate)|
    ensures StaysUp(trace) && Exec(Next(s, StartPump(Some(n))), trace).Some?
    ensures var t, p := Exec(Next(s, StartPump(Some(n))), trace).value, |s.pumps|;
            |set w | w in t.workers && t.workers[w].pump == p| == n
  {
    var started := Next(s, StartPump(Some(n)));
    StartsWithTheSetting(s, Some(n));
    Lifecycle.ReachableStep(s, StartPump(Some(n)));
    trace := UseAllPermits(started, |s.pumps|, n);
    var t := Exec(started, trace).value;
    PermitConservation(t, |s.pumps|);
    assert WorkersOf(t, |s.pumps|) == set w | w in t.workers && t.workers[w].pump == |s.pumps|;
  }

  /** And queues of any length are reachable. */
  lemma {:induction false} AnyQueueLength(n: nat) returns (s: State)
    ensures Reachable(s) && s.up && |Queue(s.jobs, Immediate)| == n
  {
    if n == 0 {
      assert Exec(INITIAL, []) == Some(INITIAL);
      Lifecycle.ReachableStep(INITIAL, Recover);
      s := Next(INITIAL, Recover);
      Ownership.RecoverStatuses(INITIAL);
    } else {
      var before := AnyQueueLength(n - 1);
      var e := Enqueue(Immediate);
      Lifecycle.ReachableStep(before, QueueEdit(e));
      s := Next(before, QueueEdit(e));
      QueueRefinement.EnqueueAppends(before.jobs, Immediate);
    }
  }
}
