/**
 * Value-level model of the circuit breaker: its configuration, the mutable
 * fields it keeps, and one function per operation that computes the fields
 * after that operation from the fields before it. The class in
 * circuit_breaker.dfy is proved to follow these functions; the properties
 * of the breaker are proved here, about one operation at a time, and in
 * breaker_traces.dfy, about sequences of them.
 *
 * Time is a parameter (milliseconds, as Date.now() returns them); the
 * action and its timeout race are an input outcome.
 */
module BreakerModel {

  datatype Option<T> = None | Some(value: T)

  /** The three states of the breaker. */
  datatype State = Closed | Open | HalfOpen

  /** The names the breaker reports its states by. */
  function StateName(s: State): string {
    match s
    case Closed => "CLOSED"
    case Open => "OPEN"
    case HalfOpen => "HALF-OPEN"
  }

  /** Why an attempted call failed: the action itself rejected, or the
      timeout of the given number of milliseconds won the race. */
  datatype Error = ActionError(message: string) | TimeoutError(ms: int)

  /** How the timed action settled. */
  datatype Outcome<T> = Succeeded(data: T) | Failed(error: Error)

  /** What fire gives its caller: the action's payload, the fallback value
      (the call was not attempted), or the action's error, re-thrown. */
  datatype Reply<T> = Returned(data: T) | Fallback(value: T) | Thrown(error: Error)

  /** The construction options; none of them changes afterwards. */
  datatype Config<T> = Config(threshold: int, cooldown: int, timeout: int, fallback: T, name: string)

  /** The options the constructor uses for any the caller leaves out. */
  const DefaultThreshold: int := 3
  const DefaultCooldown: int := 10000
  const DefaultTimeout: int := 5000
  const DefaultName: string := "default"

  /** The options a breaker gets when the caller gives only the fallback:
      three failures trip it, it cools down for ten seconds, each call may
      take five seconds, and closing needs fewer probe successes than
      opening needs failures. */
  function Defaults<T>(fallback: T): (r: Config<T>)
    ensures r.threshold == 3 && r.cooldown == 10000 && r.timeout == 5000
    ensures r.name == "default" && r.fallback == fallback
    ensures SuccessThreshold < r.threshold
  {
    Config(DefaultThreshold, DefaultCooldown, DefaultTimeout, fallback, DefaultName)
  }

  /** Consecutive half-open successes needed to close again; fixed. */
  const SuccessThreshold: nat := 2

  /** The fields the breaker mutates. */
  datatype Fields = Fields(
    state: State,
    failureCount: nat,
    successCount: nat,
    nextAttempt: int,
    lastError: Option<Error>,
    totalCalls: nat,
    successfulCalls: nat)

  /**
   * The invariant every operation keeps: a breaker that is not closed has
   * seen at least `threshold` failures since it was last reset; a closed
   * breaker has no pending probe successes and, unless just reset, fewer
   * failures than the threshold; the success counter never reaches the
   * success threshold (reaching it resets); and no more calls succeeded
   * than were made.
   */
  predicate Consistent<T>(cfg: Config<T>, f: Fields) {
    && (f.state != Closed ==> f.failureCount >= cfg.threshold)
    && (f.state == Closed ==> f.successCount == 0)
    && (f.state == Closed ==> f.failureCount == 0 || f.failureCount < cfg.threshold)
    && f.successCount < SuccessThreshold
    && f.successfulCalls <= f.totalCalls
  }

  /** The fields of a newly constructed breaker at time `now`. */
  function Initial(now: int): Fields {
    Fields(Closed, 0, 0, now, None, 0, 0)
  }

  /** reset(): back to closed with both counters cleared. */
  function Reset(f: Fields): (r: Fields)
    ensures r.state == Closed && r.failureCount == 0 && r.successCount == 0
    ensures r.(state := f.state, failureCount := f.failureCount, successCount := f.successCount) == f
  {
    f.(failureCount := 0, successCount := 0, state := Closed)
  }

  /** open() at time `now`: the circuit opens until `now + cooldown`. The
      timer it schedules is AutoHalfOpen, run later by the environment. */
  function OpenAt(f: Fields, cooldown: int, now: int): (r: Fields)
    ensures r.state == Open && r.nextAttempt == now + cooldown
    ensures r.(state := f.state, nextAttempt := f.nextAttempt) == f
  {
    f.(state := Open, nextAttempt := now + cooldown)
  }

  /** The body of the timer open() schedules: an open breaker becomes
      half-open; in any other state nothing happens. */
  function AutoHalfOpen(f: Fields): (r: Fields)
    ensures r.state != Open
    ensures f.state == Open ==> r.state == HalfOpen
    ensures f.state != Open ==> r == f
    ensures r.(state := f.state) == f
  {
    if f.state == Open then f.(state := HalfOpen) else f
  }

  /** The result of one fire: the new fields and what the caller gets. */
  datatype Transition<T> = Transition(after: Fields, reply: Reply<T>)

  /** Whether a call made at time `start` is turned away without running
      the action: the circuit is open and its cooldown has not elapsed. */
  predicate Rejects(f: Fields, start: int) {
    f.state == Open && start < f.nextAttempt
  }

  /** The reply an attempted call gives its caller. */
  function Attempted<T>(outcome: Outcome<T>): Reply<T> {
    match outcome
    case Succeeded(data) => Returned(data)
    case Failed(error) => Thrown(error)
  }

  /**
   * fire(): `start` is the time at which the call arrives (the lazy
   * open-to-half-open check reads it), `outcome` is how the timed action
   * settled, and `finish` is the time at which it settled (open() reads
   * the clock then). The action's outcome is applied in the state the
   * breaker is in when the action settles, which is this one because each
   * call is modelled as atomic.
   */
  function Fire<T>(cfg: Config<T>, f: Fields, start: int, outcome: Outcome<T>, finish: int): (r: Transition<T>)
    ensures r.after.totalCalls == f.totalCalls + 1
    ensures r.reply.Fallback? <==> Rejects(f, start)
    ensures Rejects(f, start) ==> r == Transition(f.(totalCalls := f.totalCalls + 1), Fallback(cfg.fallback))
    ensures !Rejects(f, start) ==> r.reply == Attempted(outcome)
    ensures r.after.successfulCalls == f.successfulCalls + (if r.reply.Returned? then 1 else 0)
    ensures Consistent(cfg, f) ==> Consistent(cfg, r.after)
  {
    var called := f.(totalCalls := f.totalCalls + 1);
    if called.state == Open && !(called.nextAttempt <= start) then
      Transition(called, Fallback(cfg.fallback))
    else
      var probing := if called.state == Open then called.(state := HalfOpen) else called;
      match outcome
      case Succeeded(data) =>
        var settled :=
          if probing.state == HalfOpen then
            var counted := probing.(successCount := probing.successCount + 1);
            if counted.successCount >= SuccessThreshold then Reset(counted) else counted
          else
            Reset(probing);
        Transition(settled.(successfulCalls := settled.successfulCalls + 1), Returned(data))
      case Failed(error) =>
        var failed := probing.(lastError := Some(error), failureCount := probing.failureCount + 1);
        var settled := if failed.failureCount >= cfg.threshold then OpenAt(failed, cfg.cooldown, finish) else failed;
        Transition(settled, Thrown(error))
  }

  /** The success rate getStats reports: not available before the first
      call, otherwise `successful / total` (as a percentage). */
  datatype SuccessRate = NotAvailable | Ratio(successful: nat, total: nat)

  /** What getStats returns. */
  datatype Stats = Stats(
    name: string,
    state: string,
    failureCount: nat,
    threshold: int,
    nextAttempt: int,
    cooldown: int,
    remainingTime: nat,
    successRate: SuccessRate,
    totalCalls: nat,
    lastError: Option<Error>)

  /** getStats() at time `now`. */
  function Snapshot<T>(cfg: Config<T>, f: Fields, now: int): (r: Stats)
    ensures r.remainingTime == 0 <==> f.nextAttempt <= now
    ensures r.remainingTime > 0 ==> now + r.remainingTime == f.nextAttempt
    ensures r.successRate == NotAvailable <==> f.totalCalls == 0
    ensures r.state == StateName(f.state) && r.failureCount == f.failureCount
    ensures r.nextAttempt == f.nextAttempt && r.totalCalls == f.totalCalls && r.lastError == f.lastError
    ensures r.name == cfg.name && r.threshold == cfg.threshold && r.cooldown == cfg.cooldown
    ensures f.totalCalls > 0 ==> r.successRate == Ratio(f.successfulCalls, f.totalCalls)
    ensures Consistent(cfg, f) && r.successRate.Ratio? ==> r.successRate.successful <= r.successRate.total
  {
    Stats(
      cfg.name, StateName(f.state), f.failureCount, cfg.threshold, f.nextAttempt, cfg.cooldown,
      if f.nextAttempt - now > 0 then f.nextAttempt - now else 0,
      if f.totalCalls > 0 then Ratio(f.successfulCalls, f.totalCalls) else NotAvailable,
      f.totalCalls, f.lastError)
  }

  // ---------------------------------------------------------------------
  // Properties of single operations.
  // ---------------------------------------------------------------------

  /** A new breaker is closed with every counter at zero, no error and its
      next attempt at the construction time; it satisfies the invariant
      whatever the options. */
  lemma InitialState<T>(cfg: Config<T>, now: int)
    ensures Initial(now).state == Closed
    ensures Initial(now).failureCount == 0 && Initial(now).successCount == 0
    ensures Initial(now).totalCalls == 0 && Initial(now).successfulCalls == 0
    ensures Initial(now).lastError == None && Initial(now).nextAttempt == now
    ensures Consistent(cfg, Initial(now))
  {
  }

  /** Once the cooldown has elapsed, an open breaker turns half-open before
      the outcome is applied: firing it is firing the half-open breaker. */
  lemma ElapsedCooldownProbes<T>(cfg: Config<T>, f: Fields, start: int, outcome: Outcome<T>, finish: int)
    requires f.state == Open && f.nextAttempt <= start
    ensures Fire(cfg, f, start, outcome, finish) == Fire(cfg, f.(state := HalfOpen), start, outcome, finish)
  {
  }

  /** A success while closed resets both counters, keeps the breaker closed,
      counts one successful call and hands back the payload. */
  lemma ClosedSuccessResets<T>(cfg: Config<T>, f: Fields, start: int, data: T, finish: int)
    requires f.state == Closed
    ensures Fire(cfg, f, start, Succeeded(data), finish)
      == Transition(f.(state := Closed, failureCount := 0, successCount := 0,
                       totalCalls := f.totalCalls + 1, successfulCalls := f.successfulCalls + 1),
                    Returned(data))
  {
  }

  /** A success while half-open counts toward closing: at the success
      threshold the breaker resets to closed, below it it stays half-open
      with one more success and its failure count untouched. */
  lemma HalfOpenSuccessCounts<T>(cfg: Config<T>, f: Fields, start: int, data: T, finish: int)
    requires f.state == HalfOpen
    ensures var r := Fire(cfg, f, start, Succeeded(data), finish);
      && r.reply == Returned(data)
      && r.after.successfulCalls == f.successfulCalls + 1
      && r.after.nextAttempt == f.nextAttempt && r.after.lastError == f.lastError
      && (f.successCount + 1 >= SuccessThreshold ==>
            r.after.state == Closed && r.after.failureCount == 0 && r.after.successCount == 0)
      && (f.successCount + 1 < SuccessThreshold ==>
            r.after.state == HalfOpen && r.after.failureCount == f.failureCount
            && r.after.successCount == f.successCount + 1)
  {
  }

  /** Any attempted call that fails records the error, adds one failure,
      leaves the success counters alone, re-throws the error, and opens the
      circuit until `finish + cooldown` exactly when the threshold is
      reached; below it the state is the one the call was attempted in. */
  lemma FailureCounts<T>(cfg: Config<T>, f: Fields, start: int, error: Error, finish: int)
    requires !Rejects(f, start)
    ensures var r := Fire(cfg, f, start, Failed(error), finish);
      var attemptedIn := if f.state == Open then HalfOpen else f.state;
      && r.reply == Thrown(error)
      && r.after.lastError == Some(error)
      && r.after.failureCount == f.failureCount + 1
      && r.after.successCount == f.successCount
      && r.after.successfulCalls == f.successfulCalls
      && (f.failureCount + 1 >= cfg.threshold ==>
            r.after.state == Open && r.after.nextAttempt == finish + cfg.cooldown)
      && (f.failureCount + 1 < cfg.threshold ==>
            r.after.state == attemptedIn && r.after.nextAttempt == f.nextAttempt)
  {
  }

  /** Because failureCount is not cleared on the way to half-open, a failed
      probe of a consistent breaker always reopens it at once. */
  lemma ProbeFailureReopens<T>(cfg: Config<T>, f: Fields, start: int, error: Error, finish: int)
    requires Consistent(cfg, f)
    requires f.state == HalfOpen || (f.state == Open && f.nextAttempt <= start)
    ensures Fire(cfg, f, start, Failed(error), finish).after.state == Open
    ensures Fire(cfg, f, start, Failed(error), finish).after.nextAttempt == finish + cfg.cooldown
  {
  }

  /** A timeout is an ordinary failure: it changes the fields exactly as an
      action error does, apart from the error it records. */
  lemma TimeoutIsAFailure<T>(cfg: Config<T>, f: Fields, start: int, message: string, finish: int)
    ensures var byTimeout := Fire(cfg, f, start, Failed(TimeoutError(cfg.timeout)), finish);
      var byAction := Fire(cfg, f, start, Failed(ActionError(message)), finish);
      (!Rejects(f, start) ==> byTimeout.reply == Thrown(TimeoutError(cfg.timeout)))
      && byTimeout.after.(lastError := None) == byAction.after.(lastError := None)
  {
  }

  /** reset() keeps the invariant, so calling it from outside is harmless. */
  lemma ResetKeepsInvariant<T>(cfg: Config<T>, f: Fields)
    requires Consistent(cfg, f)
    ensures Consistent(cfg, Reset(f))
  {
  }

  /** The timer body is idempotent and keeps the invariant. */
  lemma AutoHalfOpenIdempotent<T>(cfg: Config<T>, f: Fields)
    ensures AutoHalfOpen(AutoHalfOpen(f)) == AutoHalfOpen(f)
    ensures Consistent(cfg, f) ==> Consistent(cfg, AutoHalfOpen(f))
  {
  }

  /** Reading the stats twice at the same time gives the same answer, and
      as time passes only remainingTime changes, and it only goes down. */
  lemma RemainingTimeCountsDown<T>(cfg: Config<T>, f: Fields, now: int, later: int)
    requires now <= later
    ensures Snapshot(cfg, f, later).remainingTime <= Snapshot(cfg, f, now).remainingTime
    ensures Snapshot(cfg, f, later).(remainingTime := 0) == Snapshot(cfg, f, now).(remainingTime := 0)
  {
  }
}
