/**
 * The time arithmetic of an instance: the per-job budget the constructor
 * derives from the deferred job, the per-process timeout handed to the
 * renderer, and the spacing `run` keeps between two attempts.  Clock
 * readings are parameters; times are whole milliseconds.
 */
module Timing {
  import opened Wrappers

  const DefaultExecTimeout: int := 20000
  const DefaultMaxContentLength: int := 2097152
  const MinInvokeInterval: int := 500

  /** `option || fallback` on a number: a missing option and `0` both give
      the fallback, any other number is kept. */
  function OrDefault(option: Option<int>, fallback: int): (r: int)
    ensures option.Some? && option.value != 0 ==> r == option.value
    ensures option.None? || option.value == 0 ==> r == fallback
  {
    if option.Some? && option.value != 0 then option.value else fallback
  }

  /** What is left of the job's budget `now`, counted from its creation. */
  function RemainingBudget(jobTimeout: int, createdTime: int, now: int): (r: int)
    ensures r + (now - createdTime) == jobTimeout
    ensures now <= createdTime ==> r >= jobTimeout
  {
    jobTimeout - (now - createdTime)
  }

  /** `Math.min`: the per-process timeout never outlasts the job's budget
      nor the configured process timeout, and is one of the two. */
  function ExecTimeout(configured: int, budget: int): (r: int)
    ensures r <= configured && r <= budget
    ensures r == configured || r == budget
  {
    if configured <= budget then configured else budget
  }

  /** `min` is the largest number below both: anything below both is below it. */
  lemma ExecTimeoutIsGreatest(configured: int, budget: int, t: int)
    requires t <= configured && t <= budget
    ensures t <= ExecTimeout(configured, budget)
  {
  }

  /** How the next attempt is scheduled after a failed one. */
  datatype RetryTimer = After(delay: nat) | NextTick

  /** `invokeTime` is how long the failed attempt took. */
  function RetryTimerFor(invokeTime: int): (r: RetryTimer)
    ensures r.After? <==> invokeTime < MinInvokeInterval
    ensures r.After? ==> r.delay > 0 && invokeTime + r.delay == MinInvokeInterval
  {
    if invokeTime < MinInvokeInterval then After(MinInvokeInterval - invokeTime) else NextTick
  }

  /** The clock reading at which the retry scheduled at `now` for an attempt
      started at `startTime` runs. */
  function RetryDue(startTime: int, now: int): int {
    match RetryTimerFor(now - startTime)
    case After(delay) => now + delay
    case NextTick => now
  }

  /** A retry never runs earlier than 500 ms after the start of the attempt
      it replaces, nor earlier than the failure itself, and it runs at the
      first moment that meets both. */
  lemma RetryDueIsSpaced(startTime: int, now: int)
    ensures RetryDue(startTime, now) >= startTime + MinInvokeInterval
    ensures RetryDue(startTime, now) >= now
    ensures RetryDue(startTime, now) == startTime + MinInvokeInterval || RetryDue(startTime, now) == now
  {
  }
}
