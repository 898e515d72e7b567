/** The client's failure streak and the time before which it does not flush again. */
module FlushGate {
  import opened Common
  import Backoff

  datatype Gate = Gate(streak: nat, retryAfter: real)

  const FRESH := Gate(0, 0.0)
  const MAX_BACKOFF := 300.0

  predicate IsOpen(g: Gate, now: real) {
    !(now < g.retryAfter)
  }

  /** When the delay overflows the streak has already grown, and the old time stays. */
  function AfterFailure(g: Gate, flushInterval: real, now: real): Gate {
    match Backoff.CalculateBackoffDelay(g.streak, flushInterval, MAX_BACKOFF)
    case None => Gate(g.streak + 1, g.retryAfter)
    case Some(delay) => Gate(g.streak + 1, now + delay)
  }

  // ---------- runs of flushes that do not overlap ----------

  datatype Result = NothingQueued | Delivered | NotDelivered

  /** A flush asked for at `start`; if it is let through and sends, its result is recorded at `finish`. */
  datatype Flush = Flush(start: real, finish: real, result: Result)

  function Next(g: Gate, flushInterval: real, f: Flush): Gate {
    if !IsOpen(g, f.start) then g
    else
      match f.result
      case NothingQueued => g
      case Delivered => FRESH
      case NotDelivered => AfterFailure(g, flushInterval, f.finish)
  }

  function GateAfter(flushInterval: real, log: seq<Flush>): Gate {
    if log == [] then FRESH
    else Next(GateAfter(flushInterval, log[..|log| - 1]), flushInterval, log[|log| - 1])
  }

  /** When the failures since the last delivery were recorded. */
  function StreakTimes(flushInterval: real, log: seq<Flush>): seq<real> {
    if log == [] then []
    else
      var before := log[..|log| - 1];
      var f := log[|log| - 1];
      if !IsOpen(GateAfter(flushInterval, before), f.start) || f.result == NothingQueued then StreakTimes(flushInterval, before)
      else if f.result == Delivered then []
      else StreakTimes(flushInterval, before) + [f.finish]
  }

  ghost predicate NonOverlapping(log: seq<Flush>) {
    && (forall i | 0 <= i < |log| :: log[i].start <= log[i].finish)
    && (forall i, j | 0 <= i < j < |log| :: log[i].finish <= log[j].start)
  }

  /** Each failure is recorded at least its predecessor's delay later, up to the overflow. */
  ghost predicate Separated(flushInterval: real, times: seq<real>) {
    forall j: nat | 0 < j < |times| && j <= 1024 ::
      times[j] - times[j - 1] >= Backoff.Delay(j - 1, flushInterval, 300.0)
  }

  /** The gate `g` reflects the streak `ts`, whose last failure was recorded by time `now`. */
  ghost predicate Reflects(flushInterval: real, g: Gate, ts: seq<real>, now: real) {
    && g.streak == |ts|
    && Separated(flushInterval, ts)
    && (ts != [] ==> ts[|ts| - 1] <= now)
    && (0 < |ts| <= 1024 ==>
      g.retryAfter == ts[|ts| - 1] + Backoff.Delay(|ts| - 1, flushInterval, 300.0))
  }

  lemma FailureReflects(flushInterval: real, g: Gate, ts: seq<real>, now: real, f: Flush)
    requires Reflects(flushInterval, g, ts, now) && now <= f.start <= f.finish && IsOpen(g, f.start)
    ensures Reflects(flushInterval, AfterFailure(g, flushInterval, f.finish), ts + [f.finish], f.finish)
  {
    hide Backoff.Delay;
  }

  lemma {:induction false} GateInvariant(flushInterval: real, log: seq<Flush>, now: real)
    requires NonOverlapping(log)
    requires log != [] ==> log[|log| - 1].finish <= now
    ensures Reflects(flushInterval, GateAfter(flushInterval, log), StreakTimes(flushInterval, log), now)
  {
    if log != [] {
      hide Backoff.Delay;
      var before := log[..|log| - 1];
      var f := log[|log| - 1];
      assert before != [] ==> before[|before| - 1].finish <= f.start;
      GateInvariant(flushInterval, before, f.start);
      if IsOpen(GateAfter(flushInterval, before), f.start) && f.result == NotDelivered {
        FailureReflects(flushInterval, GateAfter(flushInterval, before), StreakTimes(flushInterval, before), f.start, f);
      }
    }
  }

  lemma {:induction false} SeparationAdds(flushInterval: real, times: seq<real>, k: nat)
    requires Separated(flushInterval, times)
    requires 0 < k <= |times| && k <= 1025
    ensures times[k - 1] - times[0] >= Backoff.TotalDelay(k - 1, flushInterval, 300.0)
  {
    if k > 1 {
      SeparationAdds(flushInterval, times, k - 1);
    }
  }

  /**
   Over every run of non-overlapping flushes the k-th consecutive failure is recorded at least the sum of the
   first k - 1 backoff delays after the first one; while the cap is not reached that is
   flush_interval * (2^(k - 1) - 1).
   */
  lemma BackoffSeparatesFailures(flushInterval: real, log: seq<Flush>, k: nat)
    requires flushInterval > 0.0 && NonOverlapping(log)
    requires 0 < k <= |StreakTimes(flushInterval, log)| && k <= 1025
    ensures var ts := StreakTimes(flushInterval, log);
      && ts[k - 1] - ts[0] >= Backoff.TotalDelay(k - 1, flushInterval, 300.0)
      && (k > 1 && Backoff.RawDelay(k - 2, flushInterval) <= 300.0 ==>
        ts[k - 1] - ts[0] >= flushInterval * (Pow2(k - 1) as real - 1.0))
  {
    hide StreakTimes;
    hide Backoff.TotalDelay;
    hide GateAfter;
    hide Pow2;
    hide Backoff.RawDelay;
    GateInvariant(flushInterval, log, if log == [] then 0.0 else log[|log| - 1].finish);
    SeparationAdds(flushInterval, StreakTimes(flushInterval, log), k);
    if k > 1 && Backoff.RawDelay(k - 2, flushInterval) <= 300.0 {
      Backoff.TotalDelayUncapped(k - 1, flushInterval, 300.0);
    }
  }

  /**
   A failure closes the gate for exactly its delay, as long as the streak before it is below 1024. From there on
   computing the delay overflows, the old time stands, and the gate is open at once.
   */
  lemma FailureClosesGate(g: Gate, flushInterval: real, start: real, now: real, later: real)
    requires IsOpen(g, start) && start <= now <= later
    ensures IsOpen(AfterFailure(g, flushInterval, now), later) <==>
      || g.streak >= 1024
      || later >= now + Backoff.Delay(g.streak, flushInterval, 300.0)
  {
  }
}
