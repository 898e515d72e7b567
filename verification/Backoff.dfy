/** Exponential backoff: the delay between attempts and what a run of delays adds up to. */
module Backoff {
  import opened Common

  /** The largest power of two a double can hold is 2^1023: converting a larger one raises OverflowError. */
  const OVERFLOW_EXPONENT := 1024

  /** The delay before it is capped. */
  function RawDelay(attempt: nat, baseDelay: real): real {
    baseDelay * Pow2(attempt) as real
  }

  /** The delay of an attempt below the overflow, capped. */
  function Delay(attempt: nat, baseDelay: real, maxDelay: real): real {
    RMin(RawDelay(attempt, baseDelay), maxDelay)
  }

  /** `None` stands for the OverflowError raised while converting the power of two to a float. */
  function CalculateBackoffDelay(attempt: nat, baseDelay: real, maxDelay: real): Option<real> {
    if attempt >= OVERFLOW_EXPONENT then None else Some(Delay(attempt, baseDelay, maxDelay))
  }

  /** The total of the first `k` delays. */
  function TotalDelay(k: nat, baseDelay: real, maxDelay: real): real {
    if k == 0 then 0.0 else TotalDelay(k - 1, baseDelay, maxDelay) + Delay(k - 1, baseDelay, maxDelay)
  }

  /** The sum of `k` doubling terms. */
  function GeometricSum(k: nat, baseDelay: real): real {
    baseDelay * (Pow2(k) as real - 1.0)
  }

  lemma GeometricZero(baseDelay: real)
    ensures GeometricSum(0, baseDelay) == 0.0
  {
    assert Pow2(0) as real - 1.0 == 0.0;
  }

  lemma GeometricStep(k: nat, baseDelay: real)
    requires k > 0
    ensures GeometricSum(k, baseDelay) == GeometricSum(k - 1, baseDelay) + RawDelay(k - 1, baseDelay)
  {
    var p := Pow2(k - 1) as real;
    assert Pow2(k) as real - 1.0 == (p - 1.0) + p;
    Distribute(baseDelay, p - 1.0, p);
  }

  lemma Distribute(b: real, x: real, y: real)
    ensures b * (x + y) == b * x + b * y
  {
  }

  /** `n` times the same delay. */
  function Times(n: nat, delay: real): real {
    delay * n as real
  }

  lemma TimesStep(n: nat, delay: real)
    ensures Times(0, delay) == 0.0
    ensures Times(n + 1, delay) == delay + Times(n, delay)
  {
    Distribute(delay, 1.0, n as real);
  }

  lemma Monotone(b: real, x: real, y: real)
    requires b >= 0.0 && x <= y
    ensures b * x <= b * y
  {
  }

  lemma RawDelayGrows(k: nat, baseDelay: real)
    requires baseDelay >= 0.0
    ensures 0.0 <= RawDelay(k, baseDelay) <= RawDelay(k + 1, baseDelay)
  {
    Monotone(baseDelay, 0.0, Pow2(k) as real);
    Monotone(baseDelay, Pow2(k) as real, Pow2(k + 1) as real);
  }

  /** The delay in closed form: the base doubled with each attempt, up to the cap. */
  lemma DelayDoubles(attempt: nat, baseDelay: real, maxDelay: real)
    ensures var raw := baseDelay * Pow2(attempt) as real;
      Delay(attempt, baseDelay, maxDelay) == if raw < maxDelay then raw else maxDelay
  {
  }

  /** A later attempt never waits less. */
  lemma {:induction false} DelayGrows(j: nat, k: nat, baseDelay: real, maxDelay: real)
    requires baseDelay >= 0.0 && j <= k
    ensures Delay(j, baseDelay, maxDelay) <= Delay(k, baseDelay, maxDelay)
    decreases k
  {
    hide RawDelay;
    if j < k {
      DelayGrows(j, k - 1, baseDelay, maxDelay);
      RawDelayGrows(k - 1, baseDelay);
    }
  }

  lemma {:induction false} TotalDelayCapped(k: nat, baseDelay: real, maxDelay: real)
    requires baseDelay >= 0.0 && maxDelay >= 0.0
    ensures 0.0 <= TotalDelay(k, baseDelay, maxDelay) <= maxDelay * k as real
  {
    hide RawDelay;
    if k > 0 {
      TotalDelayCapped(k - 1, baseDelay, maxDelay);
      RawDelayGrows(k - 1, baseDelay);
      Distribute(maxDelay, (k - 1) as real, 1.0);
    }
  }

  lemma {:induction false} TotalDelayGeometric(k: nat, baseDelay: real, maxDelay: real)
    ensures TotalDelay(k, baseDelay, maxDelay) <= GeometricSum(k, baseDelay)
  {
    hide RawDelay;
    hide GeometricSum;
    GeometricZero(baseDelay);
    if k > 0 {
      TotalDelayGeometric(k - 1, baseDelay, maxDelay);
      GeometricStep(k, baseDelay);
    }
  }

  /** While no delay has reached the cap the total is exactly the geometric sum. */
  lemma {:induction false} TotalDelayUncapped(k: nat, baseDelay: real, maxDelay: real)
    requires baseDelay >= 0.0
    requires k > 0 ==> RawDelay(k - 1, baseDelay) <= maxDelay
    ensures TotalDelay(k, baseDelay, maxDelay) == GeometricSum(k, baseDelay)
  {
    hide RawDelay;
    hide GeometricSum;
    GeometricZero(baseDelay);
    if k > 0 {
      if k > 1 {
        RawDelayGrows(k - 2, baseDelay);
      }
      TotalDelayUncapped(k - 1, baseDelay, maxDelay);
      GeometricStep(k, baseDelay);
    }
  }
}
