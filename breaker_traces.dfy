/**
 * Properties of sequences of operations: a run is a sequence of calls to
 * fire and firings of the auto-transition timer, applied one after
 * another from some starting fields.
 */
module BreakerTraces {
  import opened BreakerModel

  /** One thing that can happen to a breaker: a call of fire, or the timer
      scheduled by open() going off. */
  datatype Event<T> = Call(start: int, outcome: Outcome<T>, finish: int) | TimerFires

  /** The fields after a run, and the replies of its calls in order. */
  datatype Trace<T> = Trace(after: Fields, replies: seq<Reply<T>>)

  /** How many of the events are calls of fire. */
  function CallCount<T>(events: seq<Event<T>>): nat {
    if events == [] then 0
    else CallCount(events[..|events| - 1]) + (if events[|events| - 1].Call? then 1 else 0)
  }

  /** How many of the replies carry the action's payload. */
  function ReturnedCount<T>(replies: seq<Reply<T>>): nat {
    if replies == [] then 0
    else ReturnedCount(replies[..|replies| - 1]) + (if replies[|replies| - 1].Returned? then 1 else 0)
  }

  /**
   * The events applied in order from `f`. Each call adds exactly one reply
   * and one to totalCalls, successfulCalls grows by exactly the number of
   * replies that carry the action's payload, and the invariant holds
   * throughout.
   */
  function Run<T>(cfg: Config<T>, f: Fields, events: seq<Event<T>>): (r: Trace<T>)
    ensures |r.replies| == CallCount(events)
    ensures r.after.totalCalls == f.totalCalls + CallCount(events)
    ensures r.after.successfulCalls == f.successfulCalls + ReturnedCount(r.replies)
    ensures Consistent(cfg, f) ==> Consistent(cfg, r.after)
    decreases |events|
  {
    if events == [] then Trace(f, [])
    else
      var before := Run(cfg, f, events[..|events| - 1]);
      match events[|events| - 1]
      case TimerFires =>
        Trace(AutoHalfOpen(before.after), before.replies)
      case Call(start, outcome, finish) =>
        var t := Fire(cfg, before.after, start, outcome, finish);
        assert (before.replies + [t.reply])[..|before.replies|] == before.replies;
        Trace(t.after, before.replies + [t.reply])
  }

  /** Whether every event is a call whose action fails. */
  predicate AllFailedCalls<T>(events: seq<Event<T>>) {
    forall i :: 0 <= i < |events| ==> events[i].Call? && events[i].outcome.Failed?
  }

  /** Whether every event is a call that arrives before `deadline`. */
  predicate AllCallsBefore<T>(events: seq<Event<T>>, deadline: int) {
    forall i :: 0 <= i < |events| ==> events[i].Call? && events[i].start < deadline
  }

  /** From any reachable breaker the invariant holds: in particular a breaker
      that is not closed has at least `threshold` failures and the success
      counter is at most one. */
  lemma ReachableIsConsistent<T>(cfg: Config<T>, now: int, events: seq<Event<T>>)
    ensures var after := Run(cfg, Initial(now), events).after;
      && Consistent(cfg, after)
      && (after.state != Closed ==> after.failureCount >= cfg.threshold)
      && (after.state == Closed ==> after.successCount == 0)
      && after.successCount <= 1
      && after.successfulCalls <= after.totalCalls
  {
  }

  /** A closed breaker stays closed through failing calls as long as the
      failures stay below the threshold; each adds one failure and each
      call's error is re-thrown. */
  lemma {:induction false} FailuresBelowThresholdStayClosed<T>(cfg: Config<T>, f: Fields, events: seq<Event<T>>)
    requires f.state == Closed && AllFailedCalls(events)
    requires f.failureCount + |events| < cfg.threshold
    ensures var r := Run(cfg, f, events);
      && r.after.state == Closed
      && r.after.failureCount == f.failureCount + |events|
      && r.after.successCount == f.successCount
      && r.after.nextAttempt == f.nextAttempt
      && |r.replies| == |events|
      && forall i :: 0 <= i < |r.replies| ==> r.replies[i].Thrown?
  {
    if events != [] {
      var prefix := events[..|events| - 1];
      assert AllFailedCalls(prefix) by {
        forall i | 0 <= i < |prefix| ensures prefix[i].Call? && prefix[i].outcome.Failed? {
          assert prefix[i] == events[i];
        }
      }
      FailuresBelowThresholdStayClosed(cfg, f, prefix);
      var before := Run(cfg, f, prefix);
      var last := events[|events| - 1];
      assert last.Call? && last.outcome.Failed?;
      FailureCounts(cfg, before.after, last.start, last.outcome.error, last.finish);
    }
  }

  /** The failure that brings a closed breaker's count to the threshold
      opens it until that failure's settling time plus the cooldown. */
  lemma ThresholdFailureOpens<T>(cfg: Config<T>, f: Fields, events: seq<Event<T>>)
    requires f.state == Closed && AllFailedCalls(events) && |events| > 0
    requires f.failureCount + |events| == cfg.threshold
    ensures var r := Run(cfg, f, events);
      && r.after.state == Open
      && r.after.failureCount == cfg.threshold
      && r.after.successCount == f.successCount
      && r.after.nextAttempt == events[|events| - 1].finish + cfg.cooldown
  {
    var prefix := events[..|events| - 1];
    assert AllFailedCalls(prefix) by {
      forall i | 0 <= i < |prefix| ensures prefix[i].Call? && prefix[i].outcome.Failed? {
        assert prefix[i] == events[i];
      }
    }
    FailuresBelowThresholdStayClosed(cfg, f, prefix);
    var before := Run(cfg, f, prefix);
    var last := events[|events| - 1];
    assert last.Call? && last.outcome.Failed?;
    FailureCounts(cfg, before.after, last.start, last.outcome.error, last.finish);
  }

  /** While an open breaker cools down, every call gets the fallback and
      nothing but totalCalls changes, whatever the actions would have done. */
  lemma {:induction false} CoolingDownRejectsAll<T>(cfg: Config<T>, f: Fields, events: seq<Event<T>>)
    requires f.state == Open && AllCallsBefore(events, f.nextAttempt)
    ensures var r := Run(cfg, f, events);
      && r.after == f.(totalCalls := f.totalCalls + |events|)
      && |r.replies| == |events|
      && forall i :: 0 <= i < |r.replies| ==> r.replies[i] == Fallback(cfg.fallback)
  {
    if events != [] {
      var prefix := events[..|events| - 1];
      assert AllCallsBefore(prefix, f.nextAttempt) by {
        forall i | 0 <= i < |prefix| ensures prefix[i].Call? && prefix[i].start < f.nextAttempt {
          assert prefix[i] == events[i];
        }
      }
      CoolingDownRejectsAll(cfg, f, prefix);
    }
  }

  /** Two successful probes in a row close a half-open breaker that has no
      probe success yet, resetting both counters; after the first it is
      still half-open. */
  lemma TwoProbeSuccessesClose<T>(cfg: Config<T>, f: Fields, s1: int, d1: T, t1: int, s2: int, d2: T, t2: int)
    requires f.state == HalfOpen && f.successCount == 0
    ensures var first := Fire(cfg, f, s1, Succeeded(d1), t1);
      var second := Fire(cfg, first.after, s2, Succeeded(d2), t2);
      && first.after.state == HalfOpen && first.reply == Returned(d1)
      && second.after.state == Closed && second.reply == Returned(d2)
      && second.after.failureCount == 0 && second.after.successCount == 0
  {
  }

  /**
   * The success counter is not cleared when a failed probe reopens the
   * circuit, so the next probe after the cooldown closes it on its own:
   * here a half-open breaker sees a success, a failure and, once the
   * cooldown is over, a single success, and ends up closed.
   */
  lemma SuccessCountSurvivesReopen<T>(cfg: Config<T>, f: Fields, s1: int, d1: T, s2: int, e: Error, t2: int, s3: int, d3: T)
    requires Consistent(cfg, f) && f.state == HalfOpen && f.successCount == 0
    requires t2 + cfg.cooldown <= s3
    ensures var probed := Fire(cfg, f, s1, Succeeded(d1), s1).after;
      var reopened := Fire(cfg, probed, s2, Failed(e), t2).after;
      && probed.state == HalfOpen
      && reopened.state == Open && reopened.successCount == 1
      && Fire(cfg, reopened, s3, Succeeded(d3), s3).after.state == Closed
  {
  }

  /**
   * A timer left over from an earlier open episode can go off while the
   * breaker is open again and cooling down; the next call is then attempted
   * even though its start is before nextAttempt.
   */
  lemma StaleTimerLetsProbeThrough<T>(cfg: Config<T>, f: Fields, start: int, outcome: Outcome<T>, finish: int)
    requires f.state == Open && start < f.nextAttempt
    ensures Fire(cfg, f, start, outcome, finish).reply == Fallback(cfg.fallback)
    ensures Fire(cfg, AutoHalfOpen(f), start, outcome, finish).reply == Attempted(outcome)
  {
  }

  /** Running one more call extends the run by that call's transition. */
  lemma RunCall<T>(cfg: Config<T>, f: Fields, events: seq<Event<T>>, start: int, outcome: Outcome<T>, finish: int)
    ensures var before := Run(cfg, f, events);
      var t := Fire(cfg, before.after, start, outcome, finish);
      Run(cfg, f, events + [Call(start, outcome, finish)]) == Trace(t.after, before.replies + [t.reply])
  {
  }

  /**
   * The worked example with the default options (threshold 3, cooldown
   * 10000 ms, timeout 5000 ms): three failures, one of them a timeout, open
   * the circuit with 10000 ms remaining; a call 5000 ms later gets the
   * fallback and changes no counter but totalCalls; two successes from
   * 10001 ms on close it again.
   */
  lemma DefaultScenario<T>(fallback: T, now: int, m: string, data: T)
    ensures var cfg := Defaults(fallback);
      var opening := [Call(now, Failed(ActionError(m)), now),
                      Call(now, Failed(TimeoutError(cfg.timeout)), now),
                      Call(now, Failed(ActionError(m)), now)];
      var early := Call(now + 5000, Succeeded(data), now + 5000);
      var late := Call(now + 10001, Succeeded(data), now + 10001);
      var tripped := Run(cfg, Initial(now), opening);
      var cooling := Run(cfg, Initial(now), opening + [early]);
      var probed := Run(cfg, Initial(now), opening + [early] + [late]);
      var recovered := Run(cfg, Initial(now), opening + [early] + [late] + [late]);
      && tripped.after.state == Open
      && Snapshot(cfg, tripped.after, now).remainingTime == 10000
      && cooling.replies == tripped.replies + [Fallback(fallback)]
      && cooling.after == tripped.after.(totalCalls := tripped.after.totalCalls + 1)
      && probed.after.state == HalfOpen
      && recovered.after.state == Closed
      && recovered.replies == cooling.replies + [Returned(data)] + [Returned(data)]
  {
    var cfg := Defaults(fallback);
    var opening := [Call(now, Failed(ActionError(m)), now),
                    Call(now, Failed(TimeoutError(cfg.timeout)), now),
                    Call(now, Failed(ActionError(m)), now)];
    assert AllFailedCalls(opening);
    ThresholdFailureOpens(cfg, Initial(now), opening);
    var tripped := Run(cfg, Initial(now), opening).after;
    RunCall(cfg, Initial(now), opening, now + 5000, Succeeded(data), now + 5000);
    var cooling := Run(cfg, Initial(now), opening + [Call(now + 5000, Succeeded(data), now + 5000)]).after;
    ElapsedCooldownProbes(cfg, cooling, now + 10001, Succeeded(data), now + 10001);
    HalfOpenSuccessCounts(cfg, cooling.(state := HalfOpen), now + 10001, data, now + 10001);
    RunCall(cfg, Initial(now), opening + [Call(now + 5000, Succeeded(data), now + 5000)],
            now + 10001, Succeeded(data), now + 10001);
    var probed := Run(cfg, Initial(now), opening + [Call(now + 5000, Succeeded(data), now + 5000)]
                                          + [Call(now + 10001, Succeeded(data), now + 10001)]).after;
    HalfOpenSuccessCounts(cfg, probed, now + 10001, data, now + 10001);
    RunCall(cfg, Initial(now), opening + [Call(now + 5000, Succeeded(data), now + 5000)]
                                 + [Call(now + 10001, Succeeded(data), now + 10001)],
            now + 10001, Succeeded(data), now + 10001);
  }
}
