/** The retry engine of tool_kit.py: the process-wide default policy
    (`DEFAULT_RETRY_CONFIG`, `setup_retry`), the policy resolution done when
    `retry(...)` builds its decorator, and the attempt loop of `wrapper`.

    The wrapped function is given as `call`, where `call(k)` is what its k-th
    invocation does; the wall clock is given as `clock`, where `clock(0)` is the
    time read when the wrapper starts and `clock(k)` the time read after the
    k-th failed attempt. What `log_func` receives and what `time.sleep` is given
    are returned as the sequences `log` and `sleeps`. */
module Retry {
  import opened Wrappers

  /** The name of an exception class. A policy's `exceptions` set holds every
      class its `except exceptions` clause catches: the classes the caller
      listed together with all their subclasses, so that catching is set
      membership. */
  type ErrorKind = string

  /** An exception object: its class and an identity, so that "the same object
      is re-raised" can be stated. */
  datatype Exc = Exc(kind: ErrorKind, id: nat)

  /** What one invocation of the wrapped function does. */
  datatype Outcome<T> = Returns(value: T) | Raises(exc: Exc)

  /** How a call of the wrapper ends: the wrapped function's value, Python's
      implicit `None` when the attempt loop never runs, or a raised exception. */
  datatype Exit<T> = Value(value: T) | NoneValue | Raised(exc: Exc)

  /** The three messages the wrapper passes to `log_func`. */
  datatype LogMsg =
    | ThresholdAlert(threshold: int)     // the alert-threshold warning
    | DurationExceeded                   // the maximum duration was reached
    | Retrying(attempt: int, exc: Exc)   // attempt `attempt` failed with `exc`

  /** Everything a wrapper call observably does. */
  datatype Trace<T> = Trace(exit: Exit<T>, calls: nat, log: seq<LogMsg>, sleeps: seq<real>)

  /** The policy a decorator freezes when it is built. `maxDuration` and
      `alertThreshold` keep the caller's value, `None` included. */
  datatype Policy = Policy(
    maxRetries: int,
    delay: real,
    backoff: real,
    exceptions: set<ErrorKind>,
    maxDuration: Option<real>,
    alertThreshold: Option<int>)

  /** Python truthiness of an optional number: `None` and zero are false. */
  predicate TruthyInt(x: Option<int>) { x.Some? && x.value != 0 }

  predicate TruthyReal(x: Option<real>) { x.Some? && x.value != 0.0 }

  /** The process-wide default policy, `DEFAULT_RETRY_CONFIG`. */
  class RetryDefaults {
    var maxRetries: int
    var delay: real

    /** The built-in defaults: three attempts, one second. */
    constructor ()
      ensures maxRetries == 3 && delay == 1.0
    {
      maxRetries := 3;
      delay := 1.0;
    }

    /** `setup_retry`: overwrites both defaults, without any check. Called
        without arguments it restores the built-in three attempts and one
        second. */
    method SetupRetry(maxRetries: int := 3, delay: real := 1.0)
      modifies this
      ensures this.maxRetries == maxRetries && this.delay == delay
    {
      this.maxRetries := maxRetries;
      this.delay := delay;
    }

    /** `retry(...)`: resolves the policy once, from the defaults as they are
        now. A falsy `max_retries` or `delay` (absent or zero) is replaced by
        the current default; every other option is taken as given. */
    function Retry(
      maxRetries: Option<int>, delay: Option<real>, backoff: real,
      exceptions: set<ErrorKind>, maxDuration: Option<real>, alertThreshold: Option<int>): (p: Policy)
      reads this
      ensures maxRetries == None || maxRetries == Some(0) ==> p.maxRetries == this.maxRetries
      ensures TruthyInt(maxRetries) ==> p.maxRetries == maxRetries.value
      ensures delay == None || delay == Some(0.0) ==> p.delay == this.delay
      ensures TruthyReal(delay) ==> p.delay == delay.value
      ensures p.backoff == backoff && p.exceptions == exceptions
      ensures p.maxDuration == maxDuration && p.alertThreshold == alertThreshold
    {
      Policy(
        if TruthyInt(maxRetries) then maxRetries.value else this.maxRetries,
        if TruthyReal(delay) then delay.value else this.delay,
        backoff, exceptions, maxDuration, alertThreshold)
    }
  }

  /** A decorator built before `setup_retry` keeps the policy it resolved:
      the policy is a value, and changing the defaults afterwards leaves it
      as it was, while a decorator built afterwards sees the new defaults. */
  method DecorateThenReconfigure(
    defaults: RetryDefaults, maxRetries: Option<int>, delay: Option<real>,
    exceptions: set<ErrorKind>, newMaxRetries: int, newDelay: real)
    returns (before: Policy, after: Policy)
    modifies defaults
    ensures before == old(defaults.Retry(maxRetries, delay, 2.0, exceptions, None, None))
    ensures !TruthyInt(maxRetries) ==> after.maxRetries == newMaxRetries
    ensures !TruthyReal(delay) ==> after.delay == newDelay
    ensures TruthyInt(maxRetries) ==> after.maxRetries == before.maxRetries
    ensures TruthyReal(delay) ==> after.delay == before.delay
    ensures defaults.maxRetries == newMaxRetries && defaults.delay == newDelay
  {
    before := defaults.Retry(maxRetries, delay, 2.0, exceptions, None, None);
    defaults.SetupRetry(newMaxRetries, newDelay);
    after := defaults.Retry(maxRetries, delay, 2.0, exceptions, None, None);
  }

  /** `setup_retry()` with no arguments puts back the built-in defaults,
      whatever they had been changed to. */
  method RestoreDefaults(defaults: RetryDefaults)
    modifies defaults
    ensures defaults.maxRetries == 3 && defaults.delay == 1.0
  {
    defaults.SetupRetry();
  }

  /** The alert-threshold warning logged after a caught failure of `attempt`:
      one warning from attempt `alert_threshold` on, when that is truthy. */
  function AlertLog(p: Policy, attempt: int): (log: seq<LogMsg>)
    ensures |log| <= 1
    ensures log != [] <==> TruthyInt(p.alertThreshold) && attempt >= p.alertThreshold.value
    ensures log != [] ==> log[0] == ThresholdAlert(p.alertThreshold.value)
  {
    if TruthyInt(p.alertThreshold) && attempt >= p.alertThreshold.value
    then [ThresholdAlert(p.alertThreshold.value)] else []
  }

  /** After a caught failure of `attempt`, the time since the start has reached
      a truthy maximum duration. */
  predicate OutOfTime(p: Policy, clock: nat -> real, attempt: nat)
  {
    TruthyReal(p.maxDuration) && clock(attempt) - clock(0) >= p.maxDuration.value
  }

  /** The backoff scheduler: the delay of the sleep after the next failure. */
  function NextDelay(d: real, backoff: real): real
  {
    d * backoff
  }

  /** The effects `done` so far, followed by the rest of the run `rest`. */
  function Then<T>(calls: nat, log: seq<LogMsg>, sleeps: seq<real>, rest: Trace<T>): Trace<T>
  {
    Trace(rest.exit, calls + rest.calls, log + rest.log, sleeps + rest.sleeps)
  }

  lemma ThenThen<T>(c1: nat, l1: seq<LogMsg>, s1: seq<real>, c2: nat, l2: seq<LogMsg>, s2: seq<real>, rest: Trace<T>)
    ensures Then(c1, l1, s1, Then(c2, l2, s2, rest)) == Then(c1 + c2, l1 + l2, s1 + s2, rest)
  {
    assert l1 + (l2 + rest.log) == (l1 + l2) + rest.log;
    assert s1 + (s2 + rest.sleeps) == (s1 + s2) + rest.sleeps;
  }

  /** The run from attempt `attempt` on, with `d` the delay of the next sleep. */
  function RunFrom<T>(p: Policy, call: nat -> Outcome<T>, clock: nat -> real, attempt: nat, d: real): Trace<T>
    requires attempt >= 1
    decreases p.maxRetries - attempt
  {
    if attempt > p.maxRetries then Trace(NoneValue, 0, [], [])
    else if call(attempt).Returns? then Trace(Value(call(attempt).value), 1, [], [])
    else
        var e := call(attempt).exc;
        if e.kind !in p.exceptions || attempt == p.maxRetries then Trace(Raised(e), 1, [], [])
        else if OutOfTime(p, clock, attempt) then
          Trace(Raised(e), 1, AlertLog(p, attempt) + [DurationExceeded], [])
        else
          Then(1, AlertLog(p, attempt) + [Retrying(attempt, e)], [d],
               RunFrom(p, call, clock, attempt + 1, NextDelay(d, p.backoff)))
  }

  lemma RetryStep<T>(p: Policy, call: nat -> Outcome<T>, clock: nat -> real, attempt: nat, d: real)
    requires 1 <= attempt < p.maxRetries
    requires call(attempt).Raises? && call(attempt).exc.kind in p.exceptions
    requires !OutOfTime(p, clock, attempt)
    ensures RunFrom(p, call, clock, attempt, d)
         == Then(1, AlertLog(p, attempt) + [Retrying(attempt, call(attempt).exc)], [d],
                 RunFrom(p, call, clock, attempt + 1, NextDelay(d, p.backoff)))
  {
  }

  /** One call of the wrapper built with policy `p`. */
  function Run<T>(p: Policy, call: nat -> Outcome<T>, clock: nat -> real): Trace<T>
  {
    RunFrom(p, call, clock, 1, p.delay)
  }

  /** `wrapper(*args, **kwargs)`: the attempt loop. */
  method Wrapper<T>(p: Policy, call: nat -> Outcome<T>, clock: nat -> real)
    returns (exit: Exit<T>, calls: nat, log: seq<LogMsg>, sleeps: seq<real>)
    ensures Trace(exit, calls, log, sleeps) == Run(p, call, clock)
    ensures p.maxRetries <= 0 ==> exit == NoneValue && calls == 0 && log == [] && sleeps == []
  {
    var startTime := clock(0);
    var currentDelay := p.delay;
    calls, log, sleeps := 0, [], [];
    var attempt: nat := 1;
    while attempt <= p.maxRetries
      invariant 1 <= attempt
      invariant calls == attempt - 1
      invariant Run(p, call, clock) == Then(calls, log, sleeps, RunFrom(p, call, clock, attempt, currentDelay))
      invariant attempt == 1 ==> log == [] && sleeps == []
      decreases p.maxRetries - attempt
    {
      var outcome := call(attempt);
      if outcome.Returns? {
        exit, calls := Value(outcome.value), calls + 1;
        return;
      }
      var e := outcome.exc;
      if e.kind !in p.exceptions || attempt == p.maxRetries {
        exit, calls := Raised(e), calls + 1;
        return;
      }
      var alert := [];
      if TruthyInt(p.alertThreshold) && attempt >= p.alertThreshold.value {
        alert := [ThresholdAlert(p.alertThreshold.value)];
      }
      if TruthyReal(p.maxDuration) && clock(attempt) - startTime >= p.maxDuration.value {
        exit, calls, log := Raised(e), calls + 1, log + alert + [DurationExceeded];
        return;
      }
      RetryStep(p, call, clock, attempt, currentDelay);
      ThenThen(calls, log, sleeps, 1, alert + [Retrying(attempt, e)], [currentDelay],
        RunFrom(p, call, clock, attempt + 1, NextDelay(currentDelay, p.backoff)));
      calls, log, sleeps := calls + 1, log + (alert + [Retrying(attempt, e)]), sleeps + [currentDelay];
      currentDelay := NextDelay(currentDelay, p.backoff);
      attempt := attempt + 1;
    }
    exit := NoneValue;
  }

  // ----- Properties of a wrapper call -----

  /** `b` raised to the power `n`. */
  function Pow(b: real, n: nat): real
  {
    if n == 0 then 1.0 else b * Pow(b, n - 1)
  }

  /** The delay of the i-th sleep (counting from 0) of a run that starts with
      delay `d`: `d` with the backoff applied i times. */
  function DelayAt(d: real, backoff: real, i: nat): real
  {
    if i == 0 then d else NextDelay(DelayAt(d, backoff, i - 1), backoff)
  }

  /** The i-th sleep lasts `d * backoff^i`. */
  lemma {:induction false} DelayAtPow(d: real, backoff: real, i: nat)
    ensures DelayAt(d, backoff, i) == d * Pow(backoff, i)
  {
    if i > 0 {
      DelayAtPow(d, backoff, i - 1);
      assert DelayAt(d, backoff, i) == (d * Pow(backoff, i - 1)) * backoff;
    }
  }

  lemma {:induction false} DelayAtShift(d: real, backoff: real, i: nat)
    ensures DelayAt(NextDelay(d, backoff), backoff, i) == DelayAt(d, backoff, i + 1)
  {
    if i > 0 {
      DelayAtShift(d, backoff, i - 1);
    }
  }

  /** The sleeps of `n` retries of a run starting with delay `d`. */
  function Schedule(d: real, backoff: real, n: nat): (s: seq<real>)
    ensures |s| == n
  {
    seq(n, i requires 0 <= i < n => DelayAt(d, backoff, i))
  }

  /** Attempt `j` fails with a caught exception and the wrapper goes on to attempt j + 1. */
  predicate Retried<T>(p: Policy, call: nat -> Outcome<T>, clock: nat -> real, j: nat)
  {
    && 1 <= j < p.maxRetries
    && call(j).Raises?
    && call(j).exc.kind in p.exceptions
    && !OutOfTime(p, clock, j)
  }

  /** The messages logged by `n` retried attempts: for each, in attempt order,
      the alert warning when due, then the "retrying" message naming it. */
  function RetriedLog<T>(p: Policy, call: nat -> Outcome<T>, clock: nat -> real, n: nat): seq<LogMsg>
    requires forall j :: 1 <= j <= n ==> Retried(p, call, clock, j)
  {
    if n == 0 then []
    else
      assert Retried(p, call, clock, n);
      RetriedLog(p, call, clock, n - 1) + AlertLog(p, n) + [Retrying(n, call(n).exc)]
  }

  /** After k - 1 retried attempts, a call of the wrapper has made k - 1 calls,
      logged their messages, slept the first k - 1 delays of the schedule and
      continues at attempt k with the k-th delay. */
  lemma {:induction false} AfterRetries<T>(p: Policy, call: nat -> Outcome<T>, clock: nat -> real, k: nat)
    requires 1 <= k
    requires forall j :: 1 <= j < k ==> Retried(p, call, clock, j)
    ensures Run(p, call, clock)
         == Then(k - 1, RetriedLog(p, call, clock, k - 1), Schedule(p.delay, p.backoff, k - 1),
                 RunFrom(p, call, clock, k, DelayAt(p.delay, p.backoff, k - 1)))
  {
    if k == 1 {
      assert Schedule(p.delay, p.backoff, 0) == [];
    } else {
      var j := k - 1;
      var dj := DelayAt(p.delay, p.backoff, j - 1);
      AfterRetries(p, call, clock, j);
      assert Retried(p, call, clock, j);
      RetryStep(p, call, clock, j, dj);
      ThenThen(j - 1, RetriedLog(p, call, clock, j - 1), Schedule(p.delay, p.backoff, j - 1),
        1, AlertLog(p, j) + [Retrying(j, call(j).exc)], [dj],
        RunFrom(p, call, clock, k, DelayAt(p.delay, p.backoff, j)));
      assert Schedule(p.delay, p.backoff, j - 1) + [dj] == Schedule(p.delay, p.backoff, j);
      assert RetriedLog(p, call, clock, j - 1) + (AlertLog(p, j) + [Retrying(j, call(j).exc)])
          == RetriedLog(p, call, clock, j);
    }
  }

  /** If the function succeeds on attempt k <= max_retries, the earlier
      attempts having failed and been retried, the wrapper returns exactly
      that value, after k calls and k - 1 sleeps. */
  lemma SucceedsOnAttempt<T>(p: Policy, call: nat -> Outcome<T>, clock: nat -> real, k: nat, v: T)
    requires 1 <= k <= p.maxRetries
    requires forall j :: 1 <= j < k ==> Retried(p, call, clock, j)
    requires call(k) == Returns(v)
    ensures Run(p, call, clock)
         == Trace(Value(v), k, RetriedLog(p, call, clock, k - 1), Schedule(p.delay, p.backoff, k - 1))
  {
    AfterRetries(p, call, clock, k);
  }

  /** If every attempt fails with a caught exception and time does not run
      out, the function is called max_retries times and the last exception
      object is re-raised as it is, after max_retries - 1 sleeps. */
  lemma ExhaustsRetries<T>(p: Policy, call: nat -> Outcome<T>, clock: nat -> real)
    requires 1 <= p.maxRetries
    requires forall j :: 1 <= j < p.maxRetries ==> Retried(p, call, clock, j)
    requires call(p.maxRetries).Raises? && call(p.maxRetries).exc.kind in p.exceptions
    ensures Run(p, call, clock)
         == Trace(Raised(call(p.maxRetries).exc), p.maxRetries, RetriedLog(p, call, clock, p.maxRetries - 1),
                  Schedule(p.delay, p.backoff, p.maxRetries - 1))
  {
    AfterRetries(p, call, clock, p.maxRetries);
  }

  /** With no maximum duration, a function that always raises a caught
      exception is called exactly max_retries times, and the last exception
      object is re-raised. */
  lemma AlwaysFailing<T>(p: Policy, call: nat -> Outcome<T>, clock: nat -> real)
    requires 1 <= p.maxRetries && !TruthyReal(p.maxDuration)
    requires forall j :: call(j).Raises? && call(j).exc.kind in p.exceptions
    ensures Run(p, call, clock).calls == p.maxRetries
    ensures Run(p, call, clock).exit == Raised(call(p.maxRetries).exc)
    ensures |Run(p, call, clock).sleeps| == p.maxRetries - 1
  {
    assert forall j :: 1 <= j < p.maxRetries ==> Retried(p, call, clock, j);
    ExhaustsRetries(p, call, clock);
  }

  /** When a truthy maximum duration has elapsed after the caught failure of
      attempt k < max_retries, the alert (if due) is logged, then the
      termination message, and that failure is re-raised without sleeping. */
  lemma StopsOnDuration<T>(p: Policy, call: nat -> Outcome<T>, clock: nat -> real, k: nat)
    requires 1 <= k < p.maxRetries
    requires forall j :: 1 <= j < k ==> Retried(p, call, clock, j)
    requires call(k).Raises? && call(k).exc.kind in p.exceptions
    requires OutOfTime(p, clock, k)
    ensures Run(p, call, clock)
         == Trace(Raised(call(k).exc), k, RetriedLog(p, call, clock, k - 1) + AlertLog(p, k) + [DurationExceeded],
                  Schedule(p.delay, p.backoff, k - 1))
  {
    AfterRetries(p, call, clock, k);
  }

  /** An exception the policy does not catch propagates from the attempt that
      raised it, with no message and no sleep of its own. */
  lemma UncaughtPropagates<T>(p: Policy, call: nat -> Outcome<T>, clock: nat -> real, k: nat)
    requires 1 <= k <= p.maxRetries
    requires forall j :: 1 <= j < k ==> Retried(p, call, clock, j)
    requires call(k).Raises? && call(k).exc.kind !in p.exceptions
    ensures Run(p, call, clock)
         == Trace(Raised(call(k).exc), k, RetriedLog(p, call, clock, k - 1), Schedule(p.delay, p.backoff, k - 1))
  {
    AfterRetries(p, call, clock, k);
  }

  /** On every run from attempt a with delay d: at most max_retries - a + 1
      calls are made; one sleep follows each call but the last, the sleeps
      following the schedule; and the run ends with exactly the outcome of
      its last call, value or exception object, never wrapped. */
  lemma {:induction false} RunFromShape<T>(p: Policy, call: nat -> Outcome<T>, clock: nat -> real, a: nat, d: real)
    requires 1 <= a
    ensures var t := RunFrom(p, call, clock, a, d);
      && (a <= p.maxRetries <==> t.calls >= 1)
      && t.calls <= (if a <= p.maxRetries then p.maxRetries - a + 1 else 0)
      && (t.calls == 0 ==> t.exit == NoneValue && t.log == [] && t.sleeps == [])
      && (t.calls >= 1 ==> |t.sleeps| == t.calls - 1)
      && t.sleeps == Schedule(d, p.backoff, |t.sleeps|)
      && (t.exit.Value? ==> t.calls >= 1 && call(a + t.calls - 1) == Returns(t.exit.value))
      && (t.exit.Raised? ==> t.calls >= 1 && call(a + t.calls - 1) == Raises(t.exit.exc))
    decreases p.maxRetries - a
  {
    var t := RunFrom(p, call, clock, a, d);
    if a <= p.maxRetries && call(a).Raises? && call(a).exc.kind in p.exceptions
       && a != p.maxRetries && !OutOfTime(p, clock, a) {
      var d' := NextDelay(d, p.backoff);
      var rest := RunFrom(p, call, clock, a + 1, d');
      RunFromShape(p, call, clock, a + 1, d');
      RetryStep(p, call, clock, a, d);
      assert t.sleeps == [d] + rest.sleeps;
      forall i | 0 <= i < |t.sleeps|
        ensures t.sleeps[i] == DelayAt(d, p.backoff, i)
      {
        if i > 0 {
          DelayAtShift(d, p.backoff, i - 1);
        }
      }
    }
  }

  /** For every call of the wrapper: the function is called at least once
      exactly when max_retries >= 1, and at most max_retries times; the wrapper
      sleeps once between consecutive calls, the i-th sleep (from 0) lasting
      delay * backoff^i; and what the wrapper returns or raises is exactly
      what the last call returned or raised. */
  lemma WrapperShape<T>(p: Policy, call: nat -> Outcome<T>, clock: nat -> real)
    ensures var t := Run(p, call, clock);
      && (p.maxRetries >= 1 <==> t.calls >= 1)
      && t.calls <= (if p.maxRetries >= 1 then p.maxRetries else 0)
      && (t.calls == 0 ==> t.exit == NoneValue && t.log == [] && t.sleeps == [])
      && (t.calls >= 1 ==> |t.sleeps| == t.calls - 1)
      && (forall i :: 0 <= i < |t.sleeps| ==> t.sleeps[i] == p.delay * Pow(p.backoff, i))
      && (t.exit.Value? ==> call(t.calls) == Returns(t.exit.value))
      && (t.exit.Raised? ==> call(t.calls) == Raises(t.exit.exc))
  {
    RunFromShape(p, call, clock, 1, p.delay);
    forall i | 0 <= i < |Run(p, call, clock).sleeps|
      ensures Run(p, call, clock).sleeps[i] == p.delay * Pow(p.backoff, i)
    {
      DelayAtPow(p.delay, p.backoff, i);
    }
  }
}
