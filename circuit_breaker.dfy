/**
 * The CircuitBreaker class: the same fields, updated in place by the same
 * methods, with each method proved to produce the fields the value model
 * in breaker_model.dfy computes.
 */
module CircuitBreakers {
  import opened BreakerModel

  class CircuitBreaker<T> {
    const name: string
    const fallback: T
    const threshold: int
    const cooldown: int
    const timeout: int
    const successThreshold: nat := SuccessThreshold

    var state: State
    var failureCount: nat
    var nextAttempt: int
    var successCount: nat
    var lastError: Option<Error>
    var totalCalls: nat
    var successfulCalls: nat

    /** The options the breaker was built with. */
    function Configuration(): Config<T> {
      Config(threshold, cooldown, timeout, fallback, name)
    }

    /** The breaker's mutable fields, as a value. */
    function Current(): Fields
      reads this
    {
      Fields(state, failureCount, successCount, nextAttempt, lastError, totalCalls, successfulCalls)
    }

    ghost predicate Valid()
      reads this
    {
      Consistent(Configuration(), Current())
    }

    /** Builds a closed breaker at time `now`, with the same defaults for
        the options the caller leaves out. The action is not a field: each
        call's outcome is given to Fire. */
    constructor (now: int, fallback: T, threshold: int := DefaultThreshold, cooldown: int := DefaultCooldown,
                 timeout: int := DefaultTimeout, name: string := DefaultName)
      ensures Valid()
      ensures Configuration() == Config(threshold, cooldown, timeout, fallback, name)
      ensures Current() == Initial(now)
    {
      this.fallback := fallback;
      this.threshold := threshold;
      this.cooldown := cooldown;
      this.timeout := timeout;
      this.name := name;
      state := Closed;
      failureCount := 0;
      nextAttempt := now;
      successCount := 0;
      lastError := None;
      totalCalls := 0;
      successfulCalls := 0;
    }

    /** One guarded call arriving at `start` whose action settles with
        `outcome` at `finish`. */
    method Fire(start: int, outcome: Outcome<T>, finish: int) returns (reply: Reply<T>)
      requires Valid()
      modifies this
      ensures Valid()
      ensures Transition(Current(), reply) == BreakerModel.Fire(Configuration(), old(Current()), start, outcome, finish)
    {
      totalCalls := totalCalls + 1;

      if state == State.Open {
        if nextAttempt <= start {
          state := HalfOpen;
        } else {
          return Fallback(fallback);
        }
      }

      match outcome
      case Succeeded(data) =>
        if state == HalfOpen {
          successCount := successCount + 1;
          if successCount >= successThreshold {
            Reset();
          }
        } else {
          Reset();
        }
        successfulCalls := successfulCalls + 1;
        return Returned(data);
      case Failed(error) =>
        lastError := Some(error);
        failureCount := failureCount + 1;
        if failureCount >= threshold {
          Open(finish);
        }
        return Thrown(error);
    }

    /** Closes the circuit and clears both counters. */
    method Reset()
      modifies this
      ensures old(Valid()) ==> Valid()
      ensures Current() == BreakerModel.Reset(old(Current()))
    {
      failureCount := 0;
      successCount := 0;
      state := Closed;
    }

    /** Opens the circuit at time `now` until `now + cooldown`. The timer it
        schedules is the separate method AutoHalfOpen. */
    method Open(now: int)
      modifies this
      ensures Current() == OpenAt(old(Current()), cooldown, now)
    {
      state := State.Open;
      nextAttempt := now + cooldown;
    }

    /** The timer callback scheduled by Open; the environment may run it at
        any time, any number of times. */
    method AutoHalfOpen()
      requires Valid()
      modifies this
      ensures Valid()
      ensures Current() == BreakerModel.AutoHalfOpen(old(Current()))
    {
      if state == State.Open {
        state := HalfOpen;
      }
    }

    /** The stats at time `now`; changes nothing. */
    method GetStats(now: int) returns (stats: Stats)
      ensures stats == Snapshot(Configuration(), Current(), now)
    {
      var remaining := nextAttempt - now;
      if remaining < 0 {
        remaining := 0;
      }
      var rate := if totalCalls > 0 then Ratio(successfulCalls, totalCalls) else NotAvailable;
      stats := Stats(name, StateName(state), failureCount, threshold, nextAttempt, cooldown, remaining,
                     rate, totalCalls, lastError);
    }
  }
}
