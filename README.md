# Circuit breaker, modelled and verified in Dafny

This project models the `CircuitBreaker` class of `server/circuitBreaker.js`.
The breaker guards an asynchronous action. It counts the action's failures.
After `threshold` failures it opens: calls get the fallback value without
running the action. Once `cooldown` milliseconds have passed it lets probe
calls through in a half-open state. Two successful probes close it again.

The model has three modules.

- `BreakerModel` (`breaker_model.dfy`) is the value model. It holds the
  configuration (`Config`) and the mutable fields (`Fields`). It has one
  function per operation: `Fire`, `Reset`, `OpenAt`, `AutoHalfOpen` and
  `Snapshot` (getStats). The invariant `Consistent` is preserved by `Fire`,
  `Reset` and `AutoHalfOpen`. `OpenAt` on its own does not keep it: it
  opens whatever the failure count, and `Fire` calls it only at the
  threshold. Each case of the transition rules is proved as its own lemma.
- `CircuitBreakers` (`circuit_breaker.dfy`) is the class. It has the same
  mutable fields, updated in place by `Fire`, `Reset`, `Open` and
  `AutoHalfOpen`. Each method is proved to produce exactly the fields that
  the matching `BreakerModel` function computes. `Valid()` is the invariant
  on the class's fields. `Fire`, `AutoHalfOpen` and `Reset` keep it. `Open`
  does not, for the reason given above for `OpenAt`. `GetStats` changes
  nothing. The constructor has the same default options as the source.
- `BreakerTraces` (`breaker_traces.dfy`) covers sequences of calls and timer
  firings (`Run`). It proves the multi-call properties:
  - fewer than `threshold` failures leave the breaker closed;
  - the `threshold`-th failure opens it;
  - every call during the cooldown gets the fallback;
  - two probe successes close it;
  - the call counters count calls and payload replies exactly;
  - the worked example with the default options.

Time is an explicit parameter in milliseconds, standing for `Date.now()`.
`Fire` takes two times:
- `start`: when the call arrives. The lazy open-to-half-open check (line 66)
  reads this time.
- `finish`: when the action settles. `open()` reads the clock at that point
  (line 136).

The action and its timeout race are not modelled. Instead each call is given
its outcome: `Succeeded(data)` or `Failed(error)`. A timeout is the failure
`TimeoutError(timeout)`.

The timer that `open()` schedules is the separate method `AutoHalfOpen`. The
environment may call it at any time. This covers every moment the real timer
could go off, including a timer left over from an earlier open period.

## Behaviour of the code worth knowing

The model follows the code in each case below, including where the code
does less than a circuit breaker is usually expected to do.

- **Probe successes after a reopen.** With `successThreshold` fixed at 2
  (line 52), two consecutive successful probes are expected to close the
  circuit. The code never clears `successCount` when a failed probe reopens
  the circuit (lines 92-103). So after the sequence "success, failure" in
  half-open, one later probe success closes the breaker.
  `BreakerTraces.SuccessCountSurvivesReopen` proves this.
- **Stale timers.** Each `open()` schedules a timer (lines 140-145). Nothing
  cancels it, and it checks only that the state is still open (line 141).
  A timer from an earlier open period can therefore let a probe through
  before `nextAttempt`. `BreakerTraces.StaleTimerLetsProbeThrough` proves
  this.
- **No validation of the options.** The constructor checks only that the
  action is a function (lines 24-26). It accepts a zero or negative
  `threshold`, `cooldown` or `timeout`. The model accepts any integers, and
  every invariant holds for all of them.
- **Counters on entering half-open.** `failureCount` is not reset when the
  breaker enters half-open. It stays at or above the threshold, so one probe
  failure always reopens the circuit (`BreakerModel.ProbeFailureReopens`).

## Model

| member | source | states |
|---|---|---|
| `BreakerModel.Defaults` | server/circuitBreaker.js:19-22 | the options used when only the fallback is given: threshold 3, cooldown 10000 ms, timeout 5000 ms, name `"default"`; the fixed success threshold 2 is below this threshold |
| `BreakerModel.Reset` | server/circuitBreaker.js:125-129 | the result is closed with `failureCount` and `successCount` at 0; every other field is unchanged |
| `BreakerModel.OpenAt` | server/circuitBreaker.js:134-136 | the result is open with `nextAttempt = now + cooldown`; every other field is unchanged |
| `BreakerModel.AutoHalfOpen` | server/circuitBreaker.js:140-145 | the timer body turns an open breaker half-open and changes nothing in any other state; it never changes a field other than the state |
| `BreakerModel.Fire` | server/circuitBreaker.js:61-104 | `totalCalls` grows by exactly 1; the fallback is returned exactly when the breaker is open and `start < nextAttempt`, and then nothing else changes; otherwise the caller gets the payload or the re-thrown error; `successfulCalls` grows exactly when the payload is returned; the invariant is preserved |
| `BreakerModel.Snapshot` | server/circuitBreaker.js:152-165 | reports the name, the state's name (`"CLOSED"`, `"OPEN"` or `"HALF-OPEN"`), `failureCount`, threshold, `nextAttempt`, cooldown, `totalCalls` and the last error as they are; `remainingTime` is `max(0, nextAttempt - now)`; the success rate is unavailable exactly when `totalCalls == 0`, and otherwise is `successfulCalls / totalCalls`, at most 100% for a consistent breaker |
| `BreakerModel.InitialState` | server/circuitBreaker.js:36-42 | a new breaker is closed with all four counters at 0, no last error and `nextAttempt` equal to the construction time; it satisfies the invariant for any options |
| `BreakerModel.ElapsedCooldownProbes` | server/circuitBreaker.js:65-68 | open and `nextAttempt <= start`: firing gives exactly what firing the same breaker in half-open gives, so the state becomes half-open before the outcome is applied |
| `BreakerModel.ClosedSuccessResets` | server/circuitBreaker.js:86-91 | a success while closed resets both counters, stays closed, adds one to `totalCalls` and to `successfulCalls`, and returns the payload |
| `BreakerModel.HalfOpenSuccessCounts` | server/circuitBreaker.js:80-91 | a success while half-open adds one to `successCount`; reaching 2 resets to closed with both counters at 0; below 2 the breaker stays half-open with `failureCount` untouched |
| `BreakerModel.FailureCounts` | server/circuitBreaker.js:92-103 | an attempted call that fails records the error, adds one to `failureCount`, leaves `successCount` and `successfulCalls` alone and re-throws; at or above the threshold the breaker opens with `nextAttempt = finish + cooldown`; below it the state is the one the call was attempted in |
| `BreakerModel.ProbeFailureReopens` | server/circuitBreaker.js:95-100 | in a consistent breaker, a failed probe (half-open, or open with the cooldown over) always reopens until `finish + cooldown` |
| `BreakerModel.TimeoutIsAFailure` | server/circuitBreaker.js:111-120 | a timeout failure changes the fields exactly as an action error does, apart from the recorded error, and is re-thrown |
| `BreakerModel.ResetKeepsInvariant` | server/circuitBreaker.js:125-129 | `reset()` keeps the invariant, so it is safe for outside callers too |
| `BreakerModel.AutoHalfOpenIdempotent` | server/circuitBreaker.js:140-145 | running the timer body twice is the same as running it once, and it keeps the invariant |
| `BreakerModel.RemainingTimeCountsDown` | server/circuitBreaker.js:160 | stats taken at a later time differ only in `remainingTime`, which is never larger |
| `CircuitBreakers.CircuitBreaker.constructor` | server/circuitBreaker.js:16-52 | the new object holds the given options, with the source's defaults for those left out, and the initial fields, and satisfies `Valid()` |
| `CircuitBreakers.CircuitBreaker.Fire` | server/circuitBreaker.js:61-104 | the updated fields and the reply are those of `BreakerModel.Fire` on the old fields; `Valid()` is kept |
| `CircuitBreakers.CircuitBreaker.Reset` | server/circuitBreaker.js:125-129 | the fields become `BreakerModel.Reset` of the old fields; `Valid()` is kept |
| `CircuitBreakers.CircuitBreaker.Open` | server/circuitBreaker.js:134-146 | the fields become `BreakerModel.OpenAt` of the old fields at the given time |
| `CircuitBreakers.CircuitBreaker.AutoHalfOpen` | server/circuitBreaker.js:140-145 | the fields become `BreakerModel.AutoHalfOpen` of the old fields; `Valid()` is kept |
| `CircuitBreakers.CircuitBreaker.GetStats` | server/circuitBreaker.js:152-165 | returns `BreakerModel.Snapshot` of the current fields and changes nothing |
| `BreakerTraces.Run` | server/circuitBreaker.js:61-104 | after any sequence of calls and timer firings: one reply per call; `totalCalls` counts the calls; `successfulCalls` counts exactly the replies that carry the action's payload; the invariant holds |
| `BreakerTraces.ReachableIsConsistent` | server/circuitBreaker.js:36-145 | every breaker reachable from construction keeps these facts: not closed implies `failureCount >= threshold`; closed implies `successCount == 0`; `successCount <= 1`; `successfulCalls <= totalCalls` |
| `BreakerTraces.FailuresBelowThresholdStayClosed` | server/circuitBreaker.js:92-103 | a closed breaker stays closed through consecutive failures while the count stays below the threshold; each failure adds one, and each error is re-thrown |
| `BreakerTraces.ThresholdFailureOpens` | server/circuitBreaker.js:95-100 | the failure that brings the count to the threshold opens the breaker, with `nextAttempt` equal to that failure's settling time plus the cooldown |
| `BreakerTraces.CoolingDownRejectsAll` | server/circuitBreaker.js:65-72 | every call made before `nextAttempt` to an open breaker gets the fallback; only `totalCalls` changes, by the number of calls |
| `BreakerTraces.TwoProbeSuccessesClose` | server/circuitBreaker.js:80-85 | from half-open with no probe success yet, one success leaves the breaker half-open and two close it with both counters at 0 |
| `BreakerTraces.SuccessCountSurvivesReopen` | server/circuitBreaker.js:80-103 | half-open success, then failure: the breaker reopens with `successCount == 1`, and one success after the cooldown closes it |
| `BreakerTraces.StaleTimerLetsProbeThrough` | server/circuitBreaker.js:140-145 | during a cooldown a call gets the fallback, but after a timer firing the same call is attempted |
| `BreakerTraces.DefaultScenario` | server/circuitBreaker.js:19-21 | default options (threshold 3, cooldown 10000, timeout 5000): two action failures and a timeout open the breaker with 10000 ms remaining; a call 5000 ms later gets the fallback and changes only `totalCalls`; two successes after 10001 ms close it |

## Left out

- `_executeWithTimeout` (lines 111-120): the race between the action and a timer is asynchronous timing. Each call's outcome is an input instead. A timeout is `Failed(TimeoutError(timeout))`.
- `Date.now()`: times are parameters. Nothing requires the clock to be monotonic; the source does not either.
- The real scheduling of the timer in `open()`, its 100 ms grace and its ordering with other events: `AutoHalfOpen` may run at any moment instead, which covers every real firing time.
- Calls of `fire` that overlap across the `await` (line 77): each call is atomic in the model. Its outcome is applied to the state the breaker is in when the action settles, which here is the state left by the part before the await.
- The check that `action` is a function (lines 24-26): the action is not part of the model, since outcomes are inputs.
- All `console.log` output.
- `CircuitBreakers.CircuitBreaker.GetStats`: reports the last error as the error value, not its `message` text. It reports the success rate as the ratio `successfulCalls / totalCalls`, not as the string that `toFixed(2)` formats with a `%` sign. Floating point and string formatting are not modelled; the `"N/A"` case is.
- `BreakerModel.Fire`: `Succeeded(data)` stands for an action result whose `data` field is read at line 91. An action that resolves to `null` or `undefined` makes that read throw after `reset()` or `successCount++` (lines 80-88) and after `successfulCalls++` (line 90). The catch block (lines 92-103) then records the error, counts a failure, may open the circuit, and re-throws. So one call counts as successful and also fails. The model has no such path, and `BreakerTraces.Run`'s count of successful calls assumes it does not happen. The only caller's action is an HTTP request whose response object is never null (server/server.js).
- `CircuitBreakers.CircuitBreaker.Open`: does not keep `Valid()` when called on its own. JavaScript lets any caller call `open()` directly. The invariant holds under the constructor, `Fire`, `Reset` (`BreakerModel.ResetKeepsInvariant`), `AutoHalfOpen` and `GetStats`. Inside `Fire`, `Open` is called only at the threshold.
- JavaScript numbers: counters are unbounded naturals, and `threshold`, `cooldown`, `timeout` and times are integers. Fractional or non-finite options are not modelled.
- Thrown values that are not `Error` objects, or that are falsy (which `getStats` would report as `null`): errors are `ActionError(message)` or `TimeoutError(ms)`.
- `server/server.js` (the HTTP routes and the mock upstream with its request counter) and `public/app.js` (the dashboard) are not part of this model.
