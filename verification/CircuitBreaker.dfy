/** The circuit breaker, and what its state says about the calls made through it. */
module CircuitBreaking {
  import opened Common

  datatype Mode = Closed | Open | HalfOpen

  datatype Breaker = Breaker(mode: Mode, failureCount: nat, lastFailureTime: Option<real>)

  const FRESH := Breaker(Closed, 0, None)

  /** The timeout test; a recorded time of exactly zero counts as no time at all. */
  predicate Recovered(b: Breaker, recoveryTimeout: real, now: real) {
    b.lastFailureTime.Some? && b.lastFailureTime.value != 0.0 && now - b.lastFailureTime.value > recoveryTimeout
  }

  /** The gate in front of a call: the new breaker and whether the function is started. */
  function Enter(b: Breaker, recoveryTimeout: real, now: real): (Breaker, bool) {
    if b.mode == Open then
      if Recovered(b, recoveryTimeout, now) then (b.(mode := HalfOpen), true) else (b, false)
    else (b, true)
  }

  function OnSuccess(b: Breaker): Breaker {
    b.(failureCount := 0, mode := Closed)
  }

  function OnFailure(b: Breaker, threshold: nat, now: real): Breaker {
    var count := b.failureCount + 1;
    Breaker(if count >= threshold then Open else b.mode, count, Some(now))
  }

  class CircuitBreaker {
    const failureThreshold: nat
    const recoveryTimeout: real
    var failureCount: nat
    var lastFailureTime: Option<real>
    var state: Mode

    ghost function View(): Breaker
      reads this
    {
      Breaker(state, failureCount, lastFailureTime)
    }

    constructor (failureThreshold: nat, recoveryTimeout: real)
      ensures this.failureThreshold == failureThreshold && this.recoveryTimeout == recoveryTimeout
      ensures View() == FRESH
    {
      this.failureThreshold := failureThreshold;
      this.recoveryTimeout := recoveryTimeout;
      failureCount := 0;
      lastFailureTime := None;
      state := Closed;
    }

    method Admit(now: real) returns (started: bool)
      modifies this
      ensures (View(), started) == Enter(old(View()), recoveryTimeout, now)
    {
      if state == Open {
        if lastFailureTime.Some? && lastFailureTime.value != 0.0 && now - lastFailureTime.value > recoveryTimeout {
          state := HalfOpen;
        } else {
          return false;
        }
      }
      return true;
    }

    method RecordSuccess()
      modifies this
      ensures View() == OnSuccess(old(View()))
    {
      failureCount := 0;
      state := Closed;
    }

    method RecordFailure(now: real)
      modifies this
      ensures View() == OnFailure(old(View()), failureThreshold, now)
    {
      failureCount := failureCount + 1;
      lastFailureTime := Some(now);
      if failureCount >= failureThreshold {
        state := Open;
      }
    }
  }

  // ---------- overlapping calls ----------

  /**
   What happens at the breaker, in order, with any number of calls under way at once: a call asks to start,
   or an earlier call ends with a success, a counted failure, or a permanent client error.
   */
  datatype Occurrence = Asked(at: real) | Succeeded | Failed(at: real) | PermanentlyRejected

  function Step(b: Breaker, threshold: nat, timeout: real, e: Occurrence): Breaker {
    match e
    case Asked(now) => Enter(b, timeout, now).0
    case Succeeded => OnSuccess(b)
    case Failed(now) => OnFailure(b, threshold, now)
    case PermanentlyRejected => b
  }

  function Replay(threshold: nat, timeout: real, log: seq<Occurrence>): Breaker {
    if log == [] then FRESH
    else Step(Replay(threshold, timeout, log[..|log| - 1]), threshold, timeout, log[|log| - 1])
  }

  /** Counted failures since the last success, read off the log alone. */
  function FailuresSinceSuccess(log: seq<Occurrence>): nat {
    if log == [] then 0
    else
      var before := FailuresSinceSuccess(log[..|log| - 1]);
      match log[|log| - 1]
      case Succeeded => 0
      case Failed(_) => before + 1
      case _ => before
  }

  /** When the latest counted failure of the whole log happened. */
  function LatestFailure(log: seq<Occurrence>): Option<real> {
    if log == [] then None
    else if log[|log| - 1].Failed? then Some(log[|log| - 1].at)
    else LatestFailure(log[..|log| - 1])
  }

  /** The `i`th entry is a call let through although the failures had reached the threshold. */
  ghost predicate IsProbe(threshold: nat, timeout: real, log: seq<Occurrence>, i: nat) {
    && i < |log| && log[i].Asked?
    && FailuresSinceSuccess(log[..i]) >= threshold
    && TimedOut(LatestFailure(log[..i]), timeout, log[i].at)
  }

  ghost predicate QuietSince(log: seq<Occurrence>, i: nat) {
    forall j | i < j < |log| :: !log[j].Failed? && !log[j].Succeeded?
  }

  /** A probe was let through and neither a success nor a counted failure has been seen since. */
  ghost predicate ProbeOutstanding(threshold: nat, timeout: real, log: seq<Occurrence>) {
    exists i: nat :: IsProbe(threshold, timeout, log, i) && QuietSince(log, i)
  }

  predicate TimedOut(failure: Option<real>, timeout: real, now: real) {
    failure.Some? && failure.value != 0.0 && now - failure.value > timeout
  }

  /** Whether the breaker starts the function of a call that asks at `now` after `log`. */
  predicate Starts(threshold: nat, timeout: real, log: seq<Occurrence>, now: real) {
    Enter(Replay(threshold, timeout, log), timeout, now).1
  }

  lemma ProbeStep(threshold: nat, timeout: real, log: seq<Occurrence>)
    requires log != []
    ensures var n := |log| - 1;
      ProbeOutstanding(threshold, timeout, log) <==>
      || IsProbe(threshold, timeout, log, n)
      || (ProbeOutstanding(threshold, timeout, log[..n]) && !log[n].Failed? && !log[n].Succeeded?)
  {
    var n := |log| - 1;
    var before := log[..n];
    forall i: nat | i < n
      ensures IsProbe(threshold, timeout, log, i) <==> IsProbe(threshold, timeout, before, i)
      ensures QuietSince(log, i) <==> QuietSince(before, i) && !log[n].Failed? && !log[n].Succeeded?
    {
      assert before[..i] == log[..i];
      assert forall j | i < j < n :: before[j] == log[j];
    }
    if IsProbe(threshold, timeout, log, n) {
      assert QuietSince(log, n);
    } else if ProbeOutstanding(threshold, timeout, log) {
      var i: nat :| IsProbe(threshold, timeout, log, i) && QuietSince(log, i);
      assert i < n && IsProbe(threshold, timeout, before, i);
    } else if ProbeOutstanding(threshold, timeout, before) && !log[n].Failed? && !log[n].Succeeded? {
      var i: nat :| IsProbe(threshold, timeout, before, i) && QuietSince(before, i);
      assert IsProbe(threshold, timeout, log, i) && QuietSince(log, i);
    }
  }

  /**
   Whatever calls overlap, the breaker's three fields are functions of the history: the count is the number of
   counted failures since the last success, the mode is CLOSED exactly below the threshold, and HALF_OPEN
   exactly when a probe is outstanding.
   */
  lemma {:induction false} BreakerRefinesHistory(threshold: nat, timeout: real, log: seq<Occurrence>)
    requires threshold > 0
    ensures var b := Replay(threshold, timeout, log);
      && b.failureCount == FailuresSinceSuccess(log)
      && b.lastFailureTime == LatestFailure(log)
      && (b.mode == Closed <==> FailuresSinceSuccess(log) < threshold)
      && (b.mode == HalfOpen <==> ProbeOutstanding(threshold, timeout, log))
  {
    if log != [] {
      BreakerRefinesHistory(threshold, timeout, log[..|log| - 1]);
      ProbeStep(threshold, timeout, log);
    }
  }

  /**
   A call is started exactly when the failures since the last success are below the threshold, or a probe is
   already out, or more than the recovery timeout has passed since the latest counted failure.
   */
  lemma StartsExactlyWhen(threshold: nat, timeout: real, log: seq<Occurrence>, now: real)
    requires threshold > 0
    ensures Starts(threshold, timeout, log, now) <==>
      || FailuresSinceSuccess(log) < threshold
      || ProbeOutstanding(threshold, timeout, log)
      || TimedOut(LatestFailure(log), timeout, now)
  {
    BreakerRefinesHistory(threshold, timeout, log);
  }
}
