/** The sliding-window rate limiter. */
module RateLimiting {
  import opened Common

  /** The timestamps still inside the window. */
  function Recent(calls: seq<real>, now: real, window: real): seq<real> {
    if calls == [] then []
    else
      var rest := Recent(calls[..|calls| - 1], now, window);
      if now - calls[|calls| - 1] < window then rest + [calls[|calls| - 1]] else rest
  }

  /** One acquisition: the new timestamp list and whether the call is admitted. */
  function AcquireAt(maxCalls: nat, window: real, calls: seq<real>, now: real): (seq<real>, bool) {
    var kept := Recent(calls, now, window);
    if |kept| < maxCalls then (kept + [now], true) else (kept, false)
  }

  function Least(calls: seq<real>): (m: real)
    requires calls != []
    ensures m in calls
    ensures forall t | t in calls :: m <= t
  {
    var n := |calls| - 1;
    if n == 0 then calls[0]
    else
      assert calls == calls[..n] + [calls[n]];
      RMin(Least(calls[..n]), calls[n])
  }

  /** Seconds to wait before the next call can be admitted. */
  function RetryAfter(window: real, calls: seq<real>, now: real): real {
    if calls == [] then 0.0 else RMax(0.0, window - (now - Least(calls)))
  }

  class RateLimiter {
    const maxCalls: nat
    const timeWindow: real
    var calls: seq<real>

    constructor (maxCalls: nat, timeWindow: real)
      ensures this.maxCalls == maxCalls && this.timeWindow == timeWindow && calls == []
    {
      this.maxCalls := maxCalls;
      this.timeWindow := timeWindow;
      calls := [];
    }

    method Acquire(now: real) returns (admitted: bool)
      modifies this
      ensures (calls, admitted) == AcquireAt(maxCalls, timeWindow, old(calls), now)
    {
      var kept := [];
      for i := 0 to |calls|
        invariant kept == Recent(calls[..i], now, timeWindow)
      {
        assert calls[..i + 1][..i] == calls[..i];
        if now - calls[i] < timeWindow {
          kept := kept + [calls[i]];
        }
      }
      assert calls[..|calls|] == calls;
      calls := kept;
      if |calls| < maxCalls {
        calls := calls + [now];
        return true;
      }
      return false;
    }

    method GetRetryAfter(now: real) returns (wait: real)
      ensures wait == RetryAfter(timeWindow, calls, now)
    {
      if calls == [] {
        return 0.0;
      }
      var oldest := calls[0];
      for i := 1 to |calls|
        invariant oldest == Least(calls[..i])
      {
        assert calls[..i + 1][..i] == calls[..i];
        oldest := RMin(oldest, calls[i]);
      }
      assert calls[..|calls|] == calls;
      wait := RMax(0.0, timeWindow - (now - oldest));
    }
  }

  // ---------- whole runs ----------

  /** A clock that never runs backwards. */
  ghost predicate Nondecreasing(times: seq<real>) {
    forall i, j | 0 <= i <= j < |times| :: times[i] <= times[j]
  }

  /** The limiter's timestamps after the acquisitions at `times`, starting empty. */
  function CallsAfter(maxCalls: nat, window: real, times: seq<real>): seq<real> {
    if times == [] then []
    else AcquireAt(maxCalls, window, CallsAfter(maxCalls, window, times[..|times| - 1]), times[|times| - 1]).0
  }

  /** Every admission ever made over those acquisitions, none forgotten. */
  function Admissions(maxCalls: nat, window: real, times: seq<real>): seq<real> {
    if times == [] then []
    else
      var before := times[..|times| - 1];
      var now := times[|times| - 1];
      if AcquireAt(maxCalls, window, CallsAfter(maxCalls, window, before), now).1
      then Admissions(maxCalls, window, before) + [now]
      else Admissions(maxCalls, window, before)
  }

  /** How many of the given times lie in the half-open interval [from, to). */
  function CountIn(times: seq<real>, from: real, to: real): nat {
    if times == [] then 0
    else CountIn(times[..|times| - 1], from, to) + if from <= times[|times| - 1] < to then 1 else 0
  }

  lemma {:induction false} RecentOfRecent(calls: seq<real>, earlier: real, now: real, window: real)
    requires earlier <= now
    ensures Recent(Recent(calls, earlier, window), now, window) == Recent(calls, now, window)
  {
    if calls != [] {
      var n := |calls| - 1;
      RecentOfRecent(calls[..n], earlier, now, window);
      var rest := Recent(calls[..n], earlier, window);
      if now - calls[n] < window || earlier - calls[n] < window {
        assert (rest + [calls[n]])[..|rest|] == rest;
      }
    }
  }

  lemma RecentAppend(calls: seq<real>, call: real, now: real, window: real)
    ensures Recent(calls + [call], now, window)
         == Recent(calls, now, window) + if now - call < window then [call] else []
  {
    assert (calls + [call])[..|calls|] == calls;
  }

  lemma {:induction false} RecentKeepsSuffix(calls: seq<real>, now: real, window: real, j: nat)
    requires Nondecreasing(calls)
    requires j < |calls| && now - calls[j] < window
    ensures |Recent(calls, now, window)| >= |calls| - j
  {
    var n := |calls| - 1;
    if j < n {
      assert calls[..n][j] == calls[j];
      RecentKeepsSuffix(calls[..n], now, window, j);
    }
  }

  /** Admissions `maxCalls` apart in the full history are at least a window apart in time. */
  ghost predicate Spaced(maxCalls: nat, window: real, history: seq<real>) {
    forall k | maxCalls <= k < |history| :: history[k] - history[k - maxCalls] >= window
  }

  lemma AppendKeepsOrder(times: seq<real>, now: real)
    requires Nondecreasing(times)
    requires times != [] ==> times[|times| - 1] <= now
    ensures Nondecreasing(times + [now])
  {
    var all := times + [now];
    forall i, j | 0 <= i <= j < |all| ensures all[i] <= all[j] {
      if i < |times| == j {
        assert times[i] <= times[|times| - 1];
      }
    }
  }

  /** Admitting one more call keeps the spacing, because the window is not full. */
  lemma SpacedStep(maxCalls: nat, window: real, history: seq<real>, now: real)
    requires Nondecreasing(history) && Spaced(maxCalls, window, history)
    requires |Recent(history, now, window)| < maxCalls
    ensures Spaced(maxCalls, window, history + [now])
  {
    if |history| >= maxCalls {
      var j := |history| - maxCalls;
      if now - history[j] < window {
        RecentKeepsSuffix(history, now, window, j);
      }
    }
  }

  /** `calls` is what the limiter kept, by time `now`, of the full `history` of admissions. */
  ghost predicate Tracks(maxCalls: nat, window: real, history: seq<real>, calls: seq<real>, now: real) {
    && Nondecreasing(history)
    && Spaced(maxCalls, window, history)
    && (history != [] ==> history[|history| - 1] <= now)
    && Recent(calls, now, window) == Recent(history, now, window)
  }

  lemma TracksStep(maxCalls: nat, window: real, history: seq<real>, calls: seq<real>, earlier: real, now: real)
    requires Tracks(maxCalls, window, history, calls, earlier) && earlier <= now
    ensures Recent(calls, now, window) == Recent(history, now, window)
    ensures var (kept, admitted) := AcquireAt(maxCalls, window, calls, now);
      Tracks(maxCalls, window, if admitted then history + [now] else history, kept, now)
  {
    RecentOfRecent(calls, earlier, now, window);
    RecentOfRecent(history, earlier, now, window);
    var kept := Recent(calls, now, window);
    RecentOfRecent(calls, now, now, window);
    if |kept| < maxCalls {
      AppendKeepsOrder(history, now);
      SpacedStep(maxCalls, window, history, now);
      RecentAppend(kept, now, now, window);
      RecentAppend(history, now, now, window);
    }
  }

  lemma {:induction false} HistoryInvariant(maxCalls: nat, window: real, times: seq<real>, now: real)
    requires Nondecreasing(times)
    requires times != [] ==> times[|times| - 1] <= now
    ensures exists t | t <= now ::
      Tracks(maxCalls, window, Admissions(maxCalls, window, times), CallsAfter(maxCalls, window, times), t)
  {
    if times == [] {
      assert Tracks(maxCalls, window, Admissions(maxCalls, window, times), CallsAfter(maxCalls, window, times), now);
    } else {
      var n := |times| - 1;
      assert n > 0 ==> times[n - 1] <= times[n];
      HistoryInvariant(maxCalls, window, times[..n], times[n]);
      var h := Admissions(maxCalls, window, times[..n]);
      var c := CallsAfter(maxCalls, window, times[..n]);
      var t :| t <= times[n] && Tracks(maxCalls, window, h, c, t);
      TracksStep(maxCalls, window, h, c, t, times[n]);
      assert Tracks(maxCalls, window, Admissions(maxCalls, window, times), CallsAfter(maxCalls, window, times), times[n]);
    }
  }

  lemma PrefixOrder(times: seq<real>, now: real)
    requires Nondecreasing(times + [now])
    ensures Nondecreasing(times)
    ensures times != [] ==> times[|times| - 1] <= now
  {
    var all := times + [now];
    assert forall i | 0 <= i < |times| :: times[i] == all[i];
    assert all[|times|] == now;
  }

  /** Expired timestamps are forgotten, yet every decision is the one the full history would give. */
  lemma {:induction false} ForgettingIsHarmless(maxCalls: nat, window: real, times: seq<real>, now: real)
    requires Nondecreasing(times + [now])
    ensures AcquireAt(maxCalls, window, CallsAfter(maxCalls, window, times), now).1
        <==> |Recent(Admissions(maxCalls, window, times), now, window)| < maxCalls
  {
    PrefixOrder(times, now);
    HistoryInvariant(maxCalls, window, times, now);
    var h := Admissions(maxCalls, window, times);
    var c := CallsAfter(maxCalls, window, times);
    var t :| t <= now && Tracks(maxCalls, window, h, c, t);
    TracksStep(maxCalls, window, h, c, t, now);
  }

  lemma {:induction false} CountSkipsPrefix(times: seq<real>, from: real, to: real, p: nat)
    requires p <= |times|
    requires forall i | 0 <= i < p :: times[i] < from
    ensures CountIn(times, from, to) <= |times| - p
  {
    if times != [] {
      var n := |times| - 1;
      CountSkipsPrefix(times[..n], from, to, Min(p, n));
    }
  }

  lemma {:induction false} SpacedCount(maxCalls: nat, window: real, history: seq<real>, from: real)
    requires Nondecreasing(history) && Spaced(maxCalls, window, history)
    ensures CountIn(history, from, from + window) <= maxCalls
  {
    if history != [] {
      var n := |history| - 1;
      var last := history[n];
      if from <= last < from + window {
        if n >= maxCalls {
          assert last - history[n - maxCalls] >= window;
          assert forall i | 0 <= i <= n - maxCalls :: history[i] < from;
          CountSkipsPrefix(history, from, from + window, n - maxCalls + 1);
        } else {
          CountSkipsPrefix(history, from, from + window, 0);
        }
      } else {
        SpacedCount(maxCalls, window, history[..n], from);
      }
    }
  }

  /** Over a whole run every half-open interval of one window's length holds at most `maxCalls` admissions. */
  lemma SlidingWindowBound(maxCalls: nat, window: real, times: seq<real>, from: real)
    requires Nondecreasing(times)
    ensures CountIn(Admissions(maxCalls, window, times), from, from + window) <= maxCalls
  {
    HistoryInvariant(maxCalls, window, times, if times == [] then 0.0 else times[|times| - 1]);
    SpacedCount(maxCalls, window, Admissions(maxCalls, window, times), from);
  }

  // ---------- the advertised wait ----------

  lemma {:induction false} RecentMembers(calls: seq<real>, now: real, window: real)
    ensures forall t :: t in Recent(calls, now, window) <==> t in calls && now - t < window
    ensures |Recent(calls, now, window)| <= |calls|
    ensures (exists t | t in calls :: now - t >= window) ==> |Recent(calls, now, window)| < |calls|
    ensures (forall t | t in calls :: now - t < window) ==> |Recent(calls, now, window)| == |calls|
  {
    if calls != [] {
      var n := |calls| - 1;
      assert calls == calls[..n] + [calls[n]];
      RecentMembers(calls[..n], now, window);
      assert calls[n] in calls;
      assert forall t | t in calls[..n] :: t in calls;
    }
  }

  lemma {:induction false} NeverOverfull(maxCalls: nat, window: real, times: seq<real>)
    ensures |CallsAfter(maxCalls, window, times)| <= maxCalls
  {
    if times != [] {
      var before := times[..|times| - 1];
      NeverOverfull(maxCalls, window, before);
      RecentMembers(CallsAfter(maxCalls, window, before), times[|times| - 1], window);
    }
  }

  /**
   After a refusal at `now`, read at any `later` time, the advertised wait is exact: an acquisition `d`
   seconds on is admitted when `d` reaches the wait and refused when it falls short. A limiter of zero
   calls is the one exception: it advertises no wait and admits nothing.
   */
  lemma AdvertisedWaitIsExact(maxCalls: nat, window: real, times: seq<real>, now: real, later: real, d: Duration)
    requires Nondecreasing(times + [now]) && now <= later
    requires !AcquireAt(maxCalls, window, CallsAfter(maxCalls, window, times), now).1
    ensures var kept := AcquireAt(maxCalls, window, CallsAfter(maxCalls, window, times), now).0;
      AcquireAt(maxCalls, window, kept, later + d).1 <==> maxCalls > 0 && d >= RetryAfter(window, kept, later)
  {
    var calls := CallsAfter(maxCalls, window, times);
    var kept := AcquireAt(maxCalls, window, calls, now).0;
    NeverOverfull(maxCalls, window, times);
    RecentMembers(calls, now, window);
    RecentMembers(kept, later + d, window);
    if maxCalls > 0 {
      var oldest := Least(kept);
      assert |kept| == maxCalls;
      if d >= RetryAfter(window, kept, later) {
        assert !(later + d - oldest < window);
      } else {
        assert forall t | t in kept :: later + d - t < window;
      }
    }
  }
}
