/**
  The time-based cache of library checkouts (ensure_library_checkout in
  app/orchestrator/libraries.py) over an abstract git: one checkout directory, any history of
  calls, any pattern of failures.  Times are seconds of a nondecreasing clock.
 */
module CheckoutCache {
  import opened Wrappers

  /**
    A checkout directory: the remote of its origin (None when there is no usable checkout),
    the sync marker file, and when its content really was last synced completely.
   */
  datatype Checkout = Checkout(origin: Option<string>, marker: Option<int>, lastSync: int)

  const ABSENT := Checkout(None, None, 0)

  /** One call: what is asked, when it starts and ends, and what succeeds meanwhile. */
  datatype Call = Call(
    url: string, maxAge: int, start: int, finish: int,
    remoteReadable: bool, markerReadable: bool, refreshOk: bool, cloneOk: bool, markOk: bool)

  /** How a call ends; all but CloneFailed return the checkout. */
  datatype Answer = Fresh | Resynced | StaleReused | Cloned | CloneFailed

  function IsFresh(c: Checkout, call: Call): bool {
    && call.markerReadable && c.marker.Some?
    && call.maxAge > 0 && call.start - c.marker.value < call.maxAge
  }

  function AnswerOf(c: Checkout, call: Call): Answer {
    if c.origin == Some(call.url) && call.remoteReadable then
      if IsFresh(c, call) then Fresh
      else if call.refreshOk then Resynced else StaleReused
    else if call.cloneOk then Cloned else CloneFailed
  }

  function After(c: Checkout, call: Call): Checkout {
    match AnswerOf(c, call)
    case Fresh => c
    case StaleReused => c
    case Resynced => Checkout(c.origin, if call.markOk then Some(call.finish) else c.marker, call.finish)
    case Cloned => Checkout(Some(call.url), if call.markOk then Some(call.finish) else None, call.finish)
    case CloneFailed => Checkout(None, None, c.lastSync)
  }

  /** The checkout after a history of calls, starting with no checkout. */
  function AfterAll(calls: seq<Call>): Checkout {
    if calls == [] then ABSENT else After(AfterAll(calls[..|calls| - 1]), calls[|calls| - 1])
  }

  /** Calls on one checkout are serialized by its lock, and the clock never goes back. */
  predicate ClockOk(calls: seq<Call>) {
    && (forall k :: 0 <= k < |calls| ==> 0 <= calls[k].start <= calls[k].finish)
    && (forall j, k :: 0 <= j < k < |calls| ==> calls[j].finish <= calls[k].start)
  }

  /** The marker never claims more than what happened. */
  predicate Honest(c: Checkout, now: int) {
    (c.marker.Some? ==> c.marker.value <= c.lastSync) && c.lastSync <= now
  }

  lemma {:induction false} HistoryIsHonest(calls: seq<Call>)
    requires ClockOk(calls)
    ensures Honest(AfterAll(calls), if calls == [] then 0 else calls[|calls| - 1].finish)
    decreases |calls|
  {
    if calls != [] {
      HistoryIsHonest(calls[..|calls| - 1]);
    }
  }

  /**
    Staleness bound, for the last call of any history: a returned checkout belongs to the
    requested url, and either its content was synced during this very call, or it is younger
    than max_age, or the re-sync attempted on this call failed.
   */
  lemma StalenessBound(calls: seq<Call>)
    requires calls != [] && ClockOk(calls)
    ensures var call := calls[|calls| - 1];
            var before := AfterAll(calls[..|calls| - 1]);
            var answer, c := AnswerOf(before, call), AfterAll(calls);
            && (answer != CloneFailed ==> c.origin == Some(call.url))
            && (answer == Fresh ==> call.start - c.lastSync < call.maxAge && c == before)
            && (answer == Resynced || answer == Cloned ==> c.lastSync == call.finish)
            && (answer == StaleReused ==> !call.refreshOk && c == before)
  {
    HistoryIsHonest(calls[..|calls| - 1]);
  }

  /**
    The same bound in one line, for every limit: when the call starts, a returned checkout is
    younger than max_age, or is synced during the call, or the re-sync of this call failed.
    With a limit of 0 the first case never applies, so every call re-syncs.
   */
  lemma NeverTooOld(calls: seq<Call>)
    requires calls != [] && ClockOk(calls)
    requires AnswerOf(AfterAll(calls[..|calls| - 1]), calls[|calls| - 1]) != CloneFailed
    ensures var call := calls[|calls| - 1];
            var answer, age := AnswerOf(AfterAll(calls[..|calls| - 1]), call), call.start - AfterAll(calls).lastSync;
            && (age < call.maxAge || age <= 0 || (!call.refreshOk && answer == StaleReused))
            && (call.maxAge <= 0 ==> answer != Fresh)
  {
    StalenessBound(calls);
  }

  /**
    When a checkout is reused without a sync, and when a clone is needed, from what is on disk
    and the call alone.  A clone or re-sync that succeeds is returned with the requested origin
    and fresh content.
   */
  lemma AnswerIff(c: Checkout, call: Call)
    ensures AnswerOf(c, call) == Fresh <==>
            && c.origin == Some(call.url) && call.remoteReadable
            && call.markerReadable && c.marker.Some? && 0 < call.maxAge && call.start < c.marker.value + call.maxAge
    ensures AnswerOf(c, call) == CloneFailed <==>
            (c.origin != Some(call.url) || !call.remoteReadable) && !call.cloneOk
    ensures (c.origin != Some(call.url) || !call.remoteReadable) && call.cloneOk ==>
              && AnswerOf(c, call) == Cloned
              && After(c, call).origin == Some(call.url) && After(c, call).lastSync == call.finish
              && After(c, call).marker == (if call.markOk then Some(call.finish) else None)
    ensures c.origin == Some(call.url) && call.remoteReadable && AnswerOf(c, call) != Fresh ==>
              && (call.refreshOk ==> AnswerOf(c, call) == Resynced && After(c, call).lastSync == call.finish)
              && (!call.refreshOk ==> AnswerOf(c, call) == StaleReused && After(c, call) == c)
  {
  }

  /**
    After a call that cloned or re-synced and wrote its marker, every further call for the url
    that starts within its own limit of that moment reuses the checkout without touching it.
   */
  lemma {:induction false} ReusedWithinTheLimit(history: seq<Call>, later: seq<Call>)
    requires history != [] && history[|history| - 1].markOk
    requires var last := history[|history| - 1];
             var answer := AnswerOf(AfterAll(history[..|history| - 1]), last);
             && (answer == Cloned || answer == Resynced)
             && forall k :: 0 <= k < |later| ==>
                  && later[k].url == last.url && later[k].remoteReadable && later[k].markerReadable
                  && 0 < later[k].maxAge && later[k].start < last.finish + later[k].maxAge
    ensures AfterAll(history + later) == AfterAll(history)
    ensures forall k :: 0 <= k < |later| ==> AnswerOf(AfterAll(history), later[k]) == Fresh
    decreases |later|
  {
    if later == [] {
      assert history + later == history;
    } else {
      var n := |later| - 1;
      ReusedWithinTheLimit(history, later[..n]);
      assert (history + later)[..|history| + n] == history + later[..n];
    }
  }

  /** Over a stretch of failing re-syncs the marker keeps the time of the last real one. */
  lemma {:induction false} FailuresNeverRefreshTheMarker(c: Checkout, calls: seq<Call>)
    requires forall k :: 0 <= k < |calls| ==>
               c.origin == Some(calls[k].url) && calls[k].remoteReadable && !calls[k].refreshOk
    ensures Replay(c, calls) == c
    decreases |calls|
  {
    if calls != [] {
      FailuresNeverRefreshTheMarker(c, calls[..|calls| - 1]);
    }
  }

  function Replay(c: Checkout, calls: seq<Call>): Checkout {
    if calls == [] then c else After(Replay(c, calls[..|calls| - 1]), calls[|calls| - 1])
  }

  /** The directory as the code changes it, with the truth about its content as a ghost. */
  class CheckoutDir {
    var origin: Option<string>
    var marker: Option<int>
    ghost var lastSync: int

    ghost function View(): Checkout
      reads this
    {
      Checkout(origin, marker, lastSync)
    }

    constructor ()
      ensures View() == ABSENT
    {
      origin, marker, lastSync := None, None, 0;
    }

    /** ensure_library_checkout under the per-checkout lock; None is the raised clone failure. */
    method Ensure(call: Call) returns (answer: Option<Answer>)
      modifies this
      ensures View() == After(old(View()), call)
      ensures answer == if AnswerOf(old(View()), call) == CloneFailed then None
                        else Some(AnswerOf(old(View()), call))
    {
      if origin == Some(call.url) && call.remoteReadable {
        var synced := if call.markerReadable then marker else None;
        if synced.Some? && call.maxAge > 0 && call.start - synced.value < call.maxAge {
          return Some(Fresh);
        }
        if !call.refreshOk {
          return Some(StaleReused);
        }
        lastSync := call.finish;
        if call.markOk {
          marker := Some(call.finish);
        }
        return Some(Resynced);
      }
      origin, marker := None, None;
      if !call.cloneOk {
        return None;
      }
      origin, lastSync := Some(call.url), call.finish;
      if call.markOk {
        marker := Some(call.finish);
      }
      return Some(Cloned);
    }
  }
}
