/** What a send guarantees whatever the server answers and whatever other tasks do to limiter and breaker. */
module Delivery {
  import opened Common
  import opened BoundedQueue
  import opened Sending
  import Handshake
  import RateLimiting
  import CircuitBreaking
  import Backoff

  // ---------- one retried send ----------

  /** `t` continues `s` by at most `budget` POSTs, all of this batch; no batch has been started or finished. */
  ghost predicate SameBatch(s: Wire, t: Wire, batch: seq<Event>, budget: nat) {
    && s.posts <= t.posts
    && |t.posts| - |s.posts| <= budget
    && (forall i | |s.posts| <= i < |t.posts| :: t.posts[i].batch == batch)
    && t.batches == s.batches
    && t.leaves == s.leaves
  }

  lemma EvaluateFacts(w: World, c: Config, s: Wire, batch: seq<Event>, attempt: nat, handled: Handled)
    ensures var r := Evaluate(w, c, s, attempt, handled);
      && SameBatch(s, r.wire, batch, 0)
      && r.wire.requestsSent == s.requestsSent + (if r.Stop? && r.verdict == Accepted then 1 else 0)
      && (r.Stop? && r.verdict == Overflow ==> attempt >= 1024)
  {
    hide Backoff.Delay;
  }

  lemma AttemptFacts(w: World, c: Config, s: Wire, batch: seq<Event>, attempt: nat)
    ensures var r := Attempt(w, c, s, batch, attempt);
      && SameBatch(s, r.wire, batch, 1)
      && r.wire.requestsSent == s.requestsSent + (if r.Stop? && r.verdict == Accepted then 1 else 0)
      && (r.Stop? && r.verdict == Overflow ==> attempt >= 1024)
  {
    AttemptCases(w, c, s, batch, attempt);
    hide Attempt;
    hide HandleResponse;
    hide Evaluate;
    var s2 := Entered(c, Acquired(c, s));
    var (s3, handled) := Call(w, c, s2, batch);
    EvaluateFacts(w, c, s3, batch, attempt, handled);
  }

  /**
   One retried send makes at most `retry_attempts + 1` POSTs, all of the same batch, counts one sent request
   exactly when it is accepted, and lets no ordinary exception but a permanent one escape unless an attempt
   numbered 1024 is reached, whose backoff overflows.
   */
  lemma {:induction false} RetryIsBounded(w: World, c: Config, s: Wire, batch: seq<Event>, attempt: nat)
    requires attempt <= c.retryAttempts + 1
    ensures var (t, verdict) := Retry(w, c, s, batch, attempt);
      && SameBatch(s, t, batch, c.retryAttempts + 1 - attempt)
      && t.requestsSent == s.requestsSent + (if verdict == Accepted then 1 else 0)
      && (verdict == Overflow ==> c.retryAttempts >= 1024)
    decreases c.retryAttempts + 1 - attempt
  {
    hide Attempt;
    if attempt <= c.retryAttempts {
      AttemptFacts(w, c, s, batch, attempt);
      var r := Attempt(w, c, s, batch, attempt);
      if r.Again? {
        RetryIsBounded(w, c, r.wire, batch, attempt + 1);
      }
    }
  }

  function LastReply(t: Wire): Response
    requires t.posts != []
  {
    t.posts[|t.posts| - 1].response
  }

  /**
   The verdict on a batch is the server's: accepted, too large or rejected exactly if the last POST was answered so,
   not accepted if it was a partial failure, and no earlier answer was final.
   */
  ghost predicate ServerSaid(s: Wire, t: Wire, verdict: Verdict) {
    && s.posts <= t.posts
    && (verdict == Accepted <==> |s.posts| < |t.posts| && IsAcceptance(LastReply(t)))
    && (verdict == TooLarge <==> |s.posts| < |t.posts| && IsTooLarge(LastReply(t)))
    && (verdict == Permanent <==> |s.posts| < |t.posts| && IsPermanentRejection(LastReply(t)))
    && (|s.posts| < |t.posts| && IsPartialFailure(LastReply(t)) ==> verdict == NotAccepted)
    && (forall i | |s.posts| <= i < |t.posts| - 1 :: !IsConclusive(t.posts[i].response))
  }

  /** Only an answer that is not final lets the loop go on, and the verdict on a final one is its meaning. */
  lemma EvaluateAnswer(w: World, c: Config, s: Wire, attempt: nat, r: Response)
    ensures var e := Evaluate(w, c, s, attempt, HandleResponse(r));
      && e.wire.posts == s.posts
      && (e.Again? ==> !IsConclusive(r))
      && (e.Stop? ==>
        && (e.verdict == Accepted <==> IsAcceptance(r))
        && (e.verdict == TooLarge <==> IsTooLarge(r))
        && (e.verdict == Permanent <==> IsPermanentRejection(r))
        && (e.verdict == NotAccepted <==> IsPartialFailure(r)))
  {
    ReplyKinds(r);
    hide HandleResponse;
    hide Backoff.Delay;
  }

  /** An attempt makes at most one POST, and stops only on its answer, or when the delay overflows. */
  lemma AttemptAnswer(w: World, c: Config, s: Wire, batch: seq<Event>, attempt: nat)
    ensures var r := Attempt(w, c, s, batch, attempt);
      && s.posts <= r.wire.posts && |r.wire.posts| <= |s.posts| + 1
      && (r.Again? && |s.posts| < |r.wire.posts| ==> !IsConclusive(LastReply(r.wire)))
      && (r.Stop? ==> ServerSaid(s, r.wire, r.verdict))
      && (r.Stop? ==> (r.verdict == NotAccepted <==> |s.posts| < |r.wire.posts| && IsPartialFailure(LastReply(r.wire))))
      && r.wire.requestsFailed >= s.requestsFailed
  {
    AttemptCases(w, c, s, batch, attempt);
    hide Attempt;
    var s2 := Entered(c, Acquired(c, s));
    var r := w.server(|s2.posts|, batch);
    EvaluateAnswer(w, c, Call(w, c, s2, batch).0, attempt, r);
    EvaluateFails(w, c, Call(w, c, s2, batch).0, attempt, HandleResponse(r));
    hide HandleResponse;
    hide Evaluate;
    hide Acquired;
    hide IsAcceptance;
    hide IsPartialFailure;
    hide IsTooLarge;
    hide IsPermanentRejection;
  }

  lemma EvaluateFails(w: World, c: Config, s: Wire, attempt: nat, handled: Handled)
    ensures Evaluate(w, c, s, attempt, handled).wire.requestsFailed >= s.requestsFailed
  {
    hide Backoff.Delay;
  }

  lemma {:induction false} VerdictIsTheServers(w: World, c: Config, s: Wire, batch: seq<Event>, attempt: nat)
    requires attempt <= c.retryAttempts + 1
    ensures var (t, verdict) := Retry(w, c, s, batch, attempt); ServerSaid(s, t, verdict)
    decreases c.retryAttempts + 1 - attempt
  {
    hide Attempt;
    hide IsAcceptance;
    hide IsPartialFailure;
    hide IsTooLarge;
    hide IsPermanentRejection;
    if attempt <= c.retryAttempts {
      AttemptAnswer(w, c, s, batch, attempt);
      var r := Attempt(w, c, s, batch, attempt);
      if r.Again? {
        VerdictIsTheServers(w, c, r.wire, batch, attempt + 1);
      }
    }
  }

  /** Other tasks read the same clock: they leave no timestamp later than it. */
  ghost predicate Timely(w: World) {
    forall k: nat, now: real, shared: Shared :: (forall t | t in shared.calls :: t <= now) ==>
      forall t | t in w.others(k, now, shared).calls :: t <= now
  }

  ghost predicate NoFutureCalls(s: Wire) {
    forall t | t in s.shared.calls :: t <= s.now
  }

  lemma LimiterWait(c: Config, s: Wire)
    requires NoFutureCalls(s) && c.window >= 0.0
    ensures var (kept, admitted) := RateLimiting.AcquireAt(c.maxCalls, c.window, s.shared.calls, s.now);
      && 0.0 <= RateLimiting.RetryAfter(c.window, kept, s.now) <= c.window
      && forall t | t in kept :: t <= s.now
  {
    RateLimiting.RecentMembers(s.shared.calls, s.now, c.window);
  }

  lemma AwaitTimely(w: World, s: Wire, d: real)
    requires Timely(w) && NoFutureCalls(s) && d >= 0.0
    ensures NoFutureCalls(Await(w, s, d)) && Await(w, s, d).now >= s.now
  {
    var now := s.now + d + w.latency(s.awaits);
    assert forall t | t in s.shared.calls :: t <= now;
  }

  /** An attempt in its three cases: refused by the limiter, refused by the breaker, or a POST. */
  lemma AttemptCases(w: World, c: Config, s: Wire, batch: seq<Event>, attempt: nat)
    ensures var s1 := Acquired(c, s);
      var s2 := Entered(c, s1);
      Attempt(w, c, s, batch, attempt) ==
        if !Admits(c, s) then Again(Sleep(w, s1, RateLimiting.RetryAfter(c.window, s1.shared.calls, s.now)))
        else if !LetsStart(c, s1) then BackOff(w, c, s2.(refusals := s2.refusals + 1), attempt)
        else Evaluate(w, c, Call(w, c, s2, batch).0, attempt, Call(w, c, s2, batch).1)
  {
    hide Evaluate;
    hide Call;
    hide BackOff;
    hide Sleep;
    hide Acquired;
    hide Entered;
  }

  lemma EvaluateSleep(w: World, c: Config, s: Wire, attempt: nat, handled: Handled)
    requires Timely(w) && NoFutureCalls(s) && c.backoffFactor >= 0.0
    requires handled.Failed? && handled.error.RateLimited? ==> handled.error.seconds >= 0.0
    ensures var t := Evaluate(w, c, s, attempt, handled).wire;
      && NoFutureCalls(t)
      && s.slept <= t.slept <= s.slept + if attempt < c.retryAttempts then 300.0 else 0.0
  {
    hide Backoff.CalculateBackoffDelay;
    if handled == Failed(OtherError) {
      BackOffSleep(w, c, s, attempt);
    } else if handled.Failed? && handled.error.RateLimited? {
      GiveupSleep(w, c, s, attempt, RMin(handled.error.seconds, 300.0));
    }
  }

  lemma AttemptSleep(w: World, c: Config, s: Wire, batch: seq<Event>, attempt: nat)
    requires Timely(w) && NoFutureCalls(s) && 0.0 <= c.window <= 300.0 && c.backoffFactor >= 0.0
    ensures NoFutureCalls(Attempt(w, c, s, batch, attempt).wire)
    ensures s.slept <= Attempt(w, c, s, batch, attempt).wire.slept
    ensures Attempt(w, c, s, batch, attempt).wire.slept
         <= s.slept + if attempt < c.retryAttempts then 300.0 else c.window
  {
    LimiterWait(c, s);
    AttemptCases(w, c, s, batch, attempt);
    hide Attempt;
    hide Evaluate;
    hide BackOff;
    hide HandleResponse;
    var s1 := Acquired(c, s);
    var s2 := Entered(c, s1);
    if !Admits(c, s) {
      var wait := RateLimiting.RetryAfter(c.window, s1.shared.calls, s.now);
      AwaitTimely(w, s1.(slept := s1.slept + wait), wait);
    } else if !LetsStart(c, s1) {
      BackOffSleep(w, c, s2.(refusals := s2.refusals + 1), attempt);
    } else {
      ReplyKinds(w.server(|s2.posts|, batch));
      AwaitTimely(w, s2, 0.0);
      EvaluateSleep(w, c, Call(w, c, s2, batch).0, attempt, Call(w, c, s2, batch).1);
    }
  }

  lemma GiveupSleep(w: World, c: Config, s: Wire, attempt: nat, delay: real)
    requires Timely(w) && NoFutureCalls(s) && 0.0 <= delay
    ensures var t := SleepOrRecordGiveup(w, c, s, attempt, delay);
      NoFutureCalls(t) && t.slept == s.slept + if attempt < c.retryAttempts then delay else 0.0
  {
    AwaitTimely(w, s.(slept := s.slept + delay), delay);
  }

  lemma BackOffSleep(w: World, c: Config, s: Wire, attempt: nat)
    requires Timely(w) && NoFutureCalls(s) && c.backoffFactor >= 0.0
    ensures NoFutureCalls(BackOff(w, c, s, attempt).wire)
    ensures s.slept <= BackOff(w, c, s, attempt).wire.slept
    ensures BackOff(w, c, s, attempt).wire.slept <= s.slept + if attempt < c.retryAttempts then 60.0 else 0.0
  {
    if attempt < 1024 {
      Backoff.RawDelayGrows(attempt, c.backoffFactor);
      GiveupSleep(w, c, s, attempt, Backoff.Delay(attempt, c.backoffFactor, 60.0));
    }
  }

  /** However slow server and limiter are, one retried send sleeps at most 300 seconds per retry and one window more. */
  lemma {:induction false} RetrySleepIsBounded(w: World, c: Config, s: Wire, batch: seq<Event>, attempt: nat)
    requires attempt <= c.retryAttempts
    requires Timely(w) && NoFutureCalls(s) && 0.0 <= c.window <= 300.0 && c.backoffFactor >= 0.0
    ensures Retry(w, c, s, batch, attempt).0.slept <=
      s.slept + 300.0 * (c.retryAttempts - attempt) as real + c.window
    decreases c.retryAttempts + 1 - attempt
  {
    hide Attempt;
    AttemptSleep(w, c, s, batch, attempt);
    var r := Attempt(w, c, s, batch, attempt);
    if r.Again? && attempt < c.retryAttempts {
      RetrySleepIsBounded(w, c, r.wire, batch, attempt + 1);
    }
  }

  // ---------- what becomes of each attempt ----------

  /** The attempts that are made from number `attempt` on. */
  function Attempts(w: World, c: Config, s: Wire, batch: seq<Event>, attempt: nat): nat
    requires attempt <= c.retryAttempts + 1
    decreases c.retryAttempts + 1 - attempt
  {
    if attempt == c.retryAttempts + 1 then 0
    else
      match Attempt(w, c, s, batch, attempt)
      case Again(s') => 1 + Attempts(w, c, s', batch, attempt + 1)
      case Stop(_, _) => 1
  }

  /** Those among them that the limiter refuses. */
  function Starved(w: World, c: Config, s: Wire, batch: seq<Event>, attempt: nat): nat
    requires attempt <= c.retryAttempts + 1
    decreases c.retryAttempts + 1 - attempt
  {
    if attempt == c.retryAttempts + 1 then 0
    else
      match Attempt(w, c, s, batch, attempt)
      case Again(s') => (if Admits(c, s) then 0 else 1) + Starved(w, c, s', batch, attempt + 1)
      case Stop(_, _) => 0
  }

  lemma AttemptKind(w: World, c: Config, s: Wire, batch: seq<Event>, attempt: nat)
    ensures var t := Attempt(w, c, s, batch, attempt).wire;
      |t.posts| + t.refusals == |s.posts| + s.refusals + if Admits(c, s) then 1 else 0
    ensures Attempt(w, c, s, batch, attempt).Stop? ==> Admits(c, s)
  {
  }

  /** Each attempt is a POST, is refused by the breaker, or is refused by the limiter: nothing else uses one up. */
  lemma {:induction false} AttemptsAreAccounted(w: World, c: Config, s: Wire, batch: seq<Event>, attempt: nat)
    requires attempt <= c.retryAttempts + 1
    ensures var t := Retry(w, c, s, batch, attempt).0;
      && |t.posts| + t.refusals + Starved(w, c, s, batch, attempt)
         == |s.posts| + s.refusals + Attempts(w, c, s, batch, attempt)
      && Attempts(w, c, s, batch, attempt) <= c.retryAttempts + 1 - attempt
    decreases c.retryAttempts + 1 - attempt
  {
    hide Attempt;
    hide Admits;
    if attempt <= c.retryAttempts {
      AttemptKind(w, c, s, batch, attempt);
      var r := Attempt(w, c, s, batch, attempt);
      if r.Again? {
        AttemptsAreAccounted(w, c, r.wire, batch, attempt + 1);
      }
    }
  }

  // ---------- a partial failure ----------

  /** The last POST made between `s` and `t` reported a partial failure. */
  predicate EndsPartially(s: Wire, t: Wire) {
    |s.posts| < |t.posts| && IsPartialFailure(LastReply(t))
  }

  /**
   A partial failure ends the send with False at once, whatever attempts are left, and nothing else ends it with
   False before the attempts are used up.
   */
  lemma {:induction false} PartialFailureEndsTheSend(w: World, c: Config, s: Wire, batch: seq<Event>, attempt: nat)
    requires attempt <= c.retryAttempts + 1
    ensures var (t, verdict) := Retry(w, c, s, batch, attempt);
      && s.posts <= t.posts
      && (EndsPartially(s, t) ==> verdict == NotAccepted)
      && (verdict == NotAccepted ==>
        EndsPartially(s, t) || Attempts(w, c, s, batch, attempt) == c.retryAttempts + 1 - attempt)
    decreases c.retryAttempts + 1 - attempt
  {
    hide Attempt;
    hide HandleResponse;
    if attempt <= c.retryAttempts {
      AttemptAnswer(w, c, s, batch, attempt);
      var r := Attempt(w, c, s, batch, attempt);
      if r.Again? {
        PartialFailureEndsTheSend(w, c, r.wire, batch, attempt + 1);
      }
    }
  }

  /** A first POST answered with a partial failure is the only one, however many retries are configured. */
  lemma PartialFailureIsNotRetried(w: World, c: Config, s: Wire, batch: seq<Event>)
    requires Admits(c, s) && LetsStart(c, s)
    requires IsPartialFailure(w.server(|s.posts|, batch))
    ensures var (t, verdict) := Retry(w, c, s, batch, 0);
      && verdict == NotAccepted
      && |t.posts| == |s.posts| + 1
      && t.slept == s.slept
      && t.requestsFailed == s.requestsFailed + 1
  {
    ReplyKinds(w.server(|s.posts|, batch));
    var (s3, handled) := Call(w, c, Entered(c, Acquired(c, s)), batch);
    assert Attempt(w, c, s, batch, 0) == Evaluate(w, c, s3, 0, handled);
  }

  // ---------- one answer ----------

  /** The POST of an attempt that neither limiter nor breaker refuses. */
  lemma OneCall(w: World, c: Config, s: Wire, batch: seq<Event>, attempt: nat) returns (s3: Wire)
    requires Admits(c, s) && LetsStart(c, s)
    ensures Attempt(w, c, s, batch, attempt) == Evaluate(w, c, s3, attempt, HandleResponse(w.server(|s.posts|, batch)))
    ensures |s3.posts| == |s.posts| + 1 && s3.slept == s.slept
    ensures s3.requestsSent == s.requestsSent && s3.requestsFailed == s.requestsFailed
    ensures s3.leaves == s.leaves && s3.refusals == s.refusals
  {
    AttemptCases(w, c, s, batch, attempt);
    s3 := Call(w, c, Entered(c, Acquired(c, s)), batch).0;
  }

  /** A 429 is obeyed before the next attempt, in any world: the asked delay is slept, and the last one gives up. */
  lemma BusyAnswerIsObeyed(w: World, c: Config, s: Wire, batch: seq<Event>, attempt: nat)
    requires Admits(c, s) && LetsStart(c, s)
    requires IsBusy(w.server(|s.posts|, batch))
    ensures var r := Attempt(w, c, s, batch, attempt);
      var last := attempt >= c.retryAttempts;
      && r.Again?
      && r.wire.slept == s.slept + (if last then 0.0 else AskedDelay(w.server(|s.posts|, batch).retryAfter))
      && r.wire.requestsFailed == s.requestsFailed + (if last then 1 else 0)
  {
    ReplyKinds(w.server(|s.posts|, batch));
    var s3 := OneCall(w, c, s, batch, attempt);
    hide Attempt;
    hide HandleResponse;
  }

  /** A failure backs off 2^attempt times the factor, at most 60 seconds, before the next attempt; the last one gives up. */
  lemma FailureBacksOff(w: World, c: Config, s: Wire, batch: seq<Event>, attempt: nat)
    requires Admits(c, s) && LetsStart(c, s) && attempt < 1024
    requires IsFailure(w.server(|s.posts|, batch))
    ensures var r := Attempt(w, c, s, batch, attempt);
      var last := attempt >= c.retryAttempts;
      && r.Again?
      && r.wire.slept == s.slept + (if last then 0.0 else Backoff.Delay(attempt, c.backoffFactor, 60.0))
      && r.wire.requestsFailed == s.requestsFailed + (if last then 1 else 0)
  {
    ReplyKinds(w.server(|s.posts|, batch));
    var s3 := OneCall(w, c, s, batch, attempt);
    hide Attempt;
    hide HandleResponse;
    hide Backoff.Delay;
  }

  /** A batch whose first POST is permanently rejected is dropped with it, and counts as one failed request. */
  lemma DroppedAtOnce(w: World, c: Config, s: Wire, items: seq<Event>)
    requires items != [] && Admits(c, s) && LetsStart(c, s)
    requires var r := w.server(|s.posts|, items); IsPermanentRejection(r) || (IsTooLarge(r) && |items| == 1)
    ensures var (t, ok) := SendEvents(w, c, s, items);
      && ok
      && |t.posts| == |s.posts| + 1
      && t.slept == s.slept
      && t.requestsSent == s.requestsSent && t.requestsFailed == s.requestsFailed + 1
      && t.leaves == s.leaves + [Handshake.Leaf(items, Handshake.Rejected)]
  {
    var s0 := s.(batches := s.batches + 1);
    ReplyKinds(w.server(|s.posts|, items));
    var s3 := OneCall(w, c, s0, items, 0);
    hide Attempt;
    hide HandleResponse;
    assert Retry(w, c, s0, items, 0).0 == s3;
    if IsTooLarge(w.server(|s.posts|, items)) {
      assert SendEvents(w, c, s, items) == SplitOrDrop(w, c, s3, items);
    }
  }

  /** A batch whose first POST is accepted is done with it, and counts as one sent request. */
  lemma TakenAtOnce(w: World, c: Config, s: Wire, items: seq<Event>)
    requires items != [] && Admits(c, s) && LetsStart(c, s)
    requires IsAcceptance(w.server(|s.posts|, items))
    ensures var (t, ok) := SendEvents(w, c, s, items);
      && ok
      && |t.posts| == |s.posts| + 1
      && t.slept == s.slept
      && t.requestsSent == s.requestsSent + 1 && t.requestsFailed == s.requestsFailed
      && t.leaves == s.leaves + [Handshake.Leaf(items, Handshake.Acknowledged)]
  {
    var s0 := s.(batches := s.batches + 1);
    ReplyKinds(w.server(|s.posts|, items));
    var s3 := OneCall(w, c, s0, items, 0);
    hide Attempt;
    hide HandleResponse;
  }

  // ---------- generic failures only ----------

  /** No reply is a 429; all others, successes included, may come in any order. */
  ghost predicate NeverBusy(w: World) {
    forall n: nat, batch: seq<Event> :: !IsBusy(w.server(n, batch))
  }

  lemma GenericAttemptSleep(w: World, c: Config, s: Wire, batch: seq<Event>, attempt: nat)
    requires Timely(w) && NeverBusy(w) && NoFutureCalls(s) && 0.0 <= c.window && c.backoffFactor >= 0.0
    ensures var t := Attempt(w, c, s, batch, attempt).wire;
      && NoFutureCalls(t)
      && t.slept <= s.slept +
        if !Admits(c, s) then c.window
        else if attempt < c.retryAttempts then Backoff.Delay(attempt, c.backoffFactor, 60.0)
        else 0.0
  {
    DelayIsNonNegative(c, attempt);
    hide Backoff.Delay;
    LimiterWait(c, s);
    AttemptCases(w, c, s, batch, attempt);
    hide Attempt;
    hide Evaluate;
    hide BackOff;
    hide HandleResponse;
    var s1 := Acquired(c, s);
    var s2 := Entered(c, s1);
    if !Admits(c, s) {
      var wait := RateLimiting.RetryAfter(c.window, s1.shared.calls, s.now);
      AwaitTimely(w, s1.(slept := s1.slept + wait), wait);
    } else if !LetsStart(c, s1) {
      GenericBackOffSleep(w, c, s2.(refusals := s2.refusals + 1), attempt);
    } else {
      ReplyKinds(w.server(|s2.posts|, batch));
      AwaitTimely(w, s2, 0.0);
      GenericEvaluateSleep(w, c, Call(w, c, s2, batch).0, attempt, Call(w, c, s2, batch).1);
    }
  }

  lemma GenericEvaluateSleep(w: World, c: Config, s: Wire, attempt: nat, handled: Handled)
    requires Timely(w) && NoFutureCalls(s) && c.backoffFactor >= 0.0
    requires !(handled.Failed? && handled.error.RateLimited?)
    ensures var t := Evaluate(w, c, s, attempt, handled).wire;
      && NoFutureCalls(t)
      && t.slept <= s.slept +
        if attempt < c.retryAttempts then Backoff.Delay(attempt, c.backoffFactor, 60.0) else 0.0
  {
    DelayIsNonNegative(c, attempt);
    hide Backoff.Delay;
    if handled == Failed(OtherError) {
      GenericBackOffSleep(w, c, s, attempt);
    }
  }

  lemma GenericBackOffSleep(w: World, c: Config, s: Wire, attempt: nat)
    requires Timely(w) && NoFutureCalls(s) && c.backoffFactor >= 0.0
    ensures var t := BackOff(w, c, s, attempt).wire;
      && NoFutureCalls(t)
      && t.slept <= s.slept +
        if attempt < c.retryAttempts then Backoff.Delay(attempt, c.backoffFactor, 60.0) else 0.0
  {
    Backoff.RawDelayGrows(attempt, c.backoffFactor);
    if attempt < 1024 {
      GiveupSleep(w, c, s, attempt, Backoff.Delay(attempt, c.backoffFactor, 60.0));
    }
  }

  lemma {:induction false} GenericSleep(w: World, c: Config, s: Wire, batch: seq<Event>, attempt: nat)
    requires attempt <= c.retryAttempts
    requires Timely(w) && NeverBusy(w) && NoFutureCalls(s) && 0.0 <= c.window && c.backoffFactor >= 0.0
    ensures Retry(w, c, s, batch, attempt).0.slept <= s.slept
      + (Backoff.TotalDelay(c.retryAttempts, c.backoffFactor, 60.0)
         - Backoff.TotalDelay(attempt, c.backoffFactor, 60.0))
      + Backoff.Times(Starved(w, c, s, batch, attempt), c.window)
    decreases c.retryAttempts + 1 - attempt
  {
    hide Attempt;
    hide Backoff.Times;
    hide Admits;
    GenericAttemptSleep(w, c, s, batch, attempt);
    AttemptKind(w, c, s, batch, attempt);
    DelayIsNonNegative(c, attempt);
    Backoff.TimesStep(0, c.window);
    if attempt < c.retryAttempts {
      DelaysGrow(c, attempt + 1, c.retryAttempts);
    }
    var r := Attempt(w, c, s, batch, attempt);
    if r.Again? && attempt < c.retryAttempts {
      GenericSleep(w, c, r.wire, batch, attempt + 1);
      Backoff.TimesStep(Starved(w, c, r.wire, batch, attempt + 1), c.window);
    }
  }

  lemma {:induction false} DelaysGrow(c: Config, j: nat, k: nat)
    requires j <= k && c.backoffFactor >= 0.0
    ensures Backoff.TotalDelay(j, c.backoffFactor, 60.0) <= Backoff.TotalDelay(k, c.backoffFactor, 60.0)
    decreases k - j
  {
    hide Backoff.Delay;
    if j < k {
      DelaysGrow(c, j + 1, k);
      Backoff.RawDelayGrows(j, c.backoffFactor);
      DelayIsNonNegative(c, j);
    }
  }

  lemma DelayIsNonNegative(c: Config, j: nat)
    requires c.backoffFactor >= 0.0
    ensures Backoff.Delay(j, c.backoffFactor, 60.0) >= 0.0
  {
    Backoff.RawDelayGrows(j, c.backoffFactor);
  }

  /**
   Without 429s one retried send sleeps at most min(backoff_factor * (2^R - 1), 60 R) seconds for R retries, and one
   limiter window for every attempt the limiter refuses.
   */
  lemma {:induction false} GenericFailuresCost(w: World, c: Config, s: Wire, batch: seq<Event>)
    requires Timely(w) && NeverBusy(w) && NoFutureCalls(s) && 0.0 <= c.window && c.backoffFactor >= 0.0
    ensures Retry(w, c, s, batch, 0).0.slept - s.slept <=
      RMin(Backoff.GeometricSum(c.retryAttempts, c.backoffFactor), Backoff.Times(c.retryAttempts, 60.0))
      + Backoff.Times(Starved(w, c, s, batch, 0), c.window)
  {
    hide Retry;
    hide Starved;
    hide Backoff.GeometricSum;
    GenericSleep(w, c, s, batch, 0);
    Backoff.TotalDelayCapped(c.retryAttempts, c.backoffFactor, 60.0);
    Backoff.TotalDelayGeometric(c.retryAttempts, c.backoffFactor, 60.0);
  }

  // ---------- a whole batch ----------

  function NewLeaves(s: Wire, t: Wire): seq<Handshake.Leaf>
    requires s.leaves <= t.leaves
  {
    t.leaves[|s.leaves|..]
  }

  ghost predicate NonEmptyLeaves(leaves: seq<Handshake.Leaf>) {
    forall l | l in leaves :: l.items != []
  }

  lemma {:induction false} LeafItemsAppend(a: seq<Handshake.Leaf>, b: seq<Handshake.Leaf>)
    ensures Handshake.LeafItems(a + b) == Handshake.LeafItems(a) + Handshake.LeafItems(b)
  {
    if a == [] {
      assert a + b == b;
    } else {
      assert (a + b)[1..] == a[1..] + b;
      LeafItemsAppend(a[1..], b);
    }
  }

  lemma DeliveryAppend(xs: seq<Event>, ys: seq<Event>, a: seq<Handshake.Leaf>, b: seq<Handshake.Leaf>, okA: bool, okB: bool)
    requires Handshake.Delivery(xs, a, okA) && Handshake.Delivery(ys, b, okB)
    ensures Handshake.Delivery(xs + ys, a + b, okA && okB)
  {
    LeafItemsAppend(a, b);
    assert forall l | l in a :: l in a + b;
    assert forall l | l in b :: l in a + b;
  }

  lemma OneLeaf(items: seq<Event>, fate: Handshake.Fate)
    ensures Handshake.Delivery(items, [Handshake.Leaf(items, fate)], fate != Handshake.Deferred)
  {
    Handshake.SingleLeaf(items, fate);
    assert [Handshake.Leaf(items, fate)][0].fate == fate;
  }

  /** What `t` adds to `s` when `items` are sent with result `ok`: covering leaves, and the cost in batches and POSTs. */
  ghost predicate Sent(c: Config, s: Wire, t: Wire, items: seq<Event>, ok: bool) {
    && s.leaves <= t.leaves
    && Handshake.Delivery(items, NewLeaves(s, t), ok)
    && NonEmptyLeaves(NewLeaves(s, t))
    && s.posts <= t.posts
    && s.batches <= t.batches
    && |t.posts| - |s.posts| <= (t.batches - s.batches) * (c.retryAttempts + 1)
  }

  lemma MulAdd(a: nat, b: nat, r: nat)
    ensures (a + b) * r == a * r + b * r
  {
  }

  /** Two consecutive sends, of `xs` and then of `ys`, make one of both. */
  lemma SentTwice(c: Config, s: Wire, m: Wire, t: Wire, xs: seq<Event>, ys: seq<Event>, okX: bool, okY: bool)
    requires Sent(c, s, m, xs, okX) && Sent(c, m, t, ys, okY)
    ensures Sent(c, s, t, xs + ys, okX && okY)
    ensures NewLeaves(s, t) == NewLeaves(s, m) + NewLeaves(m, t)
  {
    DeliveryAppend(xs, ys, NewLeaves(s, m), NewLeaves(m, t), okX, okY);
    assert NewLeaves(s, t) == NewLeaves(s, m) + NewLeaves(m, t);
    MulAdd(m.batches - s.batches, t.batches - m.batches, c.retryAttempts + 1);
  }

  /** A send that ends in a single leaf. */
  lemma SentOne(c: Config, s: Wire, s1: Wire, t: Wire, items: seq<Event>, fate: Handshake.Fate)
    requires items != []
    requires SameBatch(s.(batches := s.batches + 1), s1, items, c.retryAttempts + 1)
    requires t == Finish(s1, items, fate) || t == Finish(FailOne(s1), items, fate)
    ensures Sent(c, s, t, items, fate != Handshake.Deferred)
    ensures NewLeaves(s, t) == [Handshake.Leaf(items, fate)]
  {
    OneLeaf(items, fate);
    assert NewLeaves(s, t) == [Handshake.Leaf(items, fate)];
  }

  /**
   The split covers the batch: for any server, the leaves in call order concatenate to the input, the result is
   True exactly when every leaf was acknowledged or permanently dropped, the recursion tree is binary with one
   batch send per node, and every send costs at most `retry_attempts + 1` POSTs.
   */
  lemma {:induction false} SendCoversBatch(w: World, c: Config, s: Wire, items: seq<Event>)
    ensures var (t, ok) := SendEvents(w, c, s, items);
      && Sent(c, s, t, items, ok)
      && (items != [] ==> t.batches - s.batches == 2 * |NewLeaves(s, t)| - 1)
    decreases |items|
  {
    hide Retry;
    if items == [] {
      assert NewLeaves(s, s) == [];
    } else {
      var s0 := s.(batches := s.batches + 1);
      RetryIsBounded(w, c, s0, items, 0);
      var (s1, verdict) := Retry(w, c, s0, items, 0);
      var (t, ok) := SendEvents(w, c, s, items);
      match verdict
      case Accepted => SentOne(c, s, s1, t, items, Handshake.Acknowledged);
      case NotAccepted => SentOne(c, s, s1, t, items, Handshake.Deferred);
      case Permanent => SentOne(c, s, s1, t, items, Handshake.Rejected);
      case Overflow => SentOne(c, s, s1, t, items, Handshake.Deferred);
      case TooLarge =>
        if |items| <= 1 {
          SentOne(c, s, s1, t, items, Handshake.Rejected);
        } else {
          var midpoint := |items| / 2;
          SendCoversBatch(w, c, s1, items[..midpoint]);
          var (m, left) := SendEvents(w, c, s1, items[..midpoint]);
          SendCoversBatch(w, c, m, items[midpoint..]);
          var (t', right) := SendEvents(w, c, m, items[midpoint..]);
          SplitCovers(c, s, s1, m, t', items, midpoint, left, right);
        }
    }
  }

  /** A batch send that was answered with "too large", then both halves. */
  lemma SplitCovers(c: Config, s: Wire, s1: Wire, m: Wire, t: Wire, items: seq<Event>, midpoint: nat, left: bool, right: bool)
    requires midpoint <= |items|
    requires SameBatch(s.(batches := s.batches + 1), s1, items, c.retryAttempts + 1)
    requires Sent(c, s1, m, items[..midpoint], left) && Sent(c, m, t, items[midpoint..], right)
    ensures Sent(c, s, t, items, left && right)
    ensures |NewLeaves(s, t)| == |NewLeaves(s1, m)| + |NewLeaves(m, t)|
  {
    SentTwice(c, s1, m, t, items[..midpoint], items[midpoint..], left, right);
    assert items[..midpoint] + items[midpoint..] == items;
    assert NewLeaves(s, t) == NewLeaves(s1, t);
    MulAdd(1, t.batches - s1.batches, c.retryAttempts + 1);
  }

  /** The trace holds the POST that decided the leaf: an acceptance, or a permanent rejection, of exactly its items. */
  ghost predicate Decided(posts: seq<Post>, l: Handshake.Leaf) {
    match l.fate
    case Acknowledged => exists p | p in posts :: p.batch == l.items && IsAcceptance(p.response)
    case Rejected => exists p | p in posts :: p.batch == l.items && Rejects(p.response, |l.items|)
    case Deferred => true
  }

  /** A permanent rejection; being too large is permanent only for a single item. */
  predicate Rejects(r: Response, size: nat) {
    IsPermanentRejection(r) || (IsTooLarge(r) && size <= 1)
  }

  ghost predicate AllDecided(posts: seq<Post>, leaves: seq<Handshake.Leaf>) {
    forall l | l in leaves :: Decided(posts, l)
  }

  lemma MorePosts(posts: seq<Post>, more: seq<Post>, leaves: seq<Handshake.Leaf>)
    requires AllDecided(posts, leaves) && forall p | p in posts :: p in more
    ensures AllDecided(more, leaves)
  {
    hide IsAcceptance;
    hide IsPermanentRejection;
  }

  /** The POSTs made between `s` and `t`. */
  function NewPosts(s: Wire, t: Wire): seq<Post>
    requires s.posts <= t.posts
  {
    t.posts[|s.posts|..]
  }

  /** A batch send that decided nothing, then both halves. */
  lemma DecidedHalves(s: Wire, s1: Wire, m: Wire, t: Wire)
    requires s.posts <= s1.posts && s1.posts <= m.posts && m.posts <= t.posts
    requires s1.leaves == s.leaves && s1.leaves <= m.leaves && m.leaves <= t.leaves
    requires AllDecided(NewPosts(s1, m), NewLeaves(s1, m)) && AllDecided(NewPosts(m, t), NewLeaves(m, t))
    ensures AllDecided(NewPosts(s, t), NewLeaves(s, t))
  {
    hide Decided;
    assert NewPosts(s, t) == NewPosts(s, s1) + NewPosts(s1, m) + NewPosts(m, t);
    MorePosts(NewPosts(s1, m), NewPosts(s, t), NewLeaves(s1, m));
    MorePosts(NewPosts(m, t), NewPosts(s, t), NewLeaves(m, t));
    assert NewLeaves(s, t) == NewLeaves(s1, m) + NewLeaves(m, t);
  }

  lemma OneDecided(s: Wire, s1: Wire, t: Wire, items: seq<Event>, verdict: Verdict, fate: Handshake.Fate)
    requires ServerSaid(s, s1, verdict) && s1.leaves == s.leaves
    requires forall i | |s.posts| <= i < |s1.posts| :: s1.posts[i].batch == items
    requires t == Finish(s1, items, fate) || t == Finish(FailOne(s1), items, fate)
    requires fate == Handshake.Acknowledged ==> verdict == Accepted
    requires fate == Handshake.Rejected ==> verdict == Permanent || (verdict == TooLarge && |items| <= 1)
    ensures s.leaves <= t.leaves && s.posts <= t.posts && AllDecided(NewPosts(s, t), NewLeaves(s, t))
  {
    hide IsAcceptance;
    hide IsPermanentRejection;
    assert NewLeaves(s, t) == [Handshake.Leaf(items, fate)];
    if fate != Handshake.Deferred {
      assert NewPosts(s, t)[|NewPosts(s, t)| - 1] == s1.posts[|s1.posts| - 1];
    }
  }

  lemma SaidSince(s: Wire, s0: Wire, t: Wire, verdict: Verdict)
    requires s0.posts == s.posts && ServerSaid(s0, t, verdict)
    ensures ServerSaid(s, t, verdict)
  {
    hide IsAcceptance;
    hide IsPermanentRejection;
  }

  /**
   Every item the sender reports as acknowledged or dropped was in a POST of this very send, of exactly its leaf,
   that the server accepted or permanently rejected.
   */
  lemma {:induction false} LeavesAreDecidedByServer(w: World, c: Config, s: Wire, items: seq<Event>)
    ensures var t := SendEvents(w, c, s, items).0;
      s.leaves <= t.leaves && s.posts <= t.posts && AllDecided(NewPosts(s, t), NewLeaves(s, t))
    decreases |items|
  {
    hide Retry;
    hide Decided;
    hide ServerSaid;
    if items == [] {
      assert NewLeaves(s, s) == [];
    } else {
      var s0 := s.(batches := s.batches + 1);
      RetryIsBounded(w, c, s0, items, 0);
      VerdictIsTheServers(w, c, s0, items, 0);
      var (s1, verdict) := Retry(w, c, s0, items, 0);
      SaidSince(s, s0, s1, verdict);
      if verdict == TooLarge && |items| > 1 {
        var midpoint := |items| / 2;
        LeavesAreDecidedByServer(w, c, s1, items[..midpoint]);
        var m := SendEvents(w, c, s1, items[..midpoint]).0;
        LeavesAreDecidedByServer(w, c, m, items[midpoint..]);
        var t := SendEvents(w, c, m, items[midpoint..]).0;
        DecidedHalves(s, s1, m, t);
      } else {
        var t := SendEvents(w, c, s, items).0;
        match verdict
        case Accepted => OneDecided(s, s1, t, items, verdict, Handshake.Acknowledged);
        case NotAccepted => OneDecided(s, s1, t, items, verdict, Handshake.Deferred);
        case Overflow => OneDecided(s, s1, t, items, verdict, Handshake.Deferred);
        case Permanent => OneDecided(s, s1, t, items, verdict, Handshake.Rejected);
        case TooLarge =>
          assert t == SplitOrDrop(w, c, s1, items).0 == Finish(FailOne(s1), items, Handshake.Rejected);
          OneDecided(s, s1, t, items, verdict, Handshake.Rejected);
      }
    }
  }

  /** How many leaves ended this way. */
  function HowMany(leaves: seq<Handshake.Leaf>, fate: Handshake.Fate): nat {
    if leaves == [] then 0
    else HowMany(leaves[..|leaves| - 1], fate) + if leaves[|leaves| - 1].fate == fate then 1 else 0
  }

  lemma {:induction false} HowManyAppend(a: seq<Handshake.Leaf>, b: seq<Handshake.Leaf>, fate: Handshake.Fate)
    ensures HowMany(a + b, fate) == HowMany(a, fate) + HowMany(b, fate)
  {
    if b == [] {
      assert a + b == a;
    } else {
      var n := |b| - 1;
      assert (a + b)[..|a + b| - 1] == a + b[..n];
      HowManyAppend(a, b[..n], fate);
    }
  }

  lemma {:induction false} FailuresGrow(w: World, c: Config, s: Wire, batch: seq<Event>, attempt: nat)
    requires attempt <= c.retryAttempts + 1
    ensures Retry(w, c, s, batch, attempt).0.requestsFailed >= s.requestsFailed
    decreases c.retryAttempts + 1 - attempt
  {
    hide Attempt;
    if attempt <= c.retryAttempts {
      AttemptAnswer(w, c, s, batch, attempt);
      var r := Attempt(w, c, s, batch, attempt);
      if r.Again? {
        FailuresGrow(w, c, r.wire, batch, attempt + 1);
      }
    }
  }

  /** The sender's counters against the new leaves: one sent request an acceptance, a failed one a rejection. */
  ghost predicate CountsLeaves(s: Wire, t: Wire) {
    && s.leaves <= t.leaves
    && t.requestsSent == s.requestsSent + HowMany(NewLeaves(s, t), Handshake.Acknowledged)
    && t.requestsFailed >= s.requestsFailed + HowMany(NewLeaves(s, t), Handshake.Rejected)
  }

  lemma CountsTwice(s: Wire, m: Wire, t: Wire)
    requires CountsLeaves(s, m) && CountsLeaves(m, t)
    ensures CountsLeaves(s, t)
  {
    assert NewLeaves(s, t) == NewLeaves(s, m) + NewLeaves(m, t);
    HowManyAppend(NewLeaves(s, m), NewLeaves(m, t), Handshake.Acknowledged);
    HowManyAppend(NewLeaves(s, m), NewLeaves(m, t), Handshake.Rejected);
  }

  lemma CountsOne(s: Wire, t: Wire, items: seq<Event>, fate: Handshake.Fate)
    requires t.leaves == s.leaves + [Handshake.Leaf(items, fate)]
    requires t.requestsSent == s.requestsSent + if fate == Handshake.Acknowledged then 1 else 0
    requires t.requestsFailed >= s.requestsFailed + if fate == Handshake.Rejected then 1 else 0
    ensures CountsLeaves(s, t)
  {
    assert NewLeaves(s, t) == [Handshake.Leaf(items, fate)];
    assert [Handshake.Leaf(items, fate)][..0] == [];
  }

  /**
   Over a whole split recursion `requests_sent` grows by exactly the number of leaf batches acknowledged, and each
   one permanently dropped is a failed request.
   */
  lemma {:induction false} RequestsSentAreAcknowledged(w: World, c: Config, s: Wire, items: seq<Event>)
    ensures CountsLeaves(s, SendEvents(w, c, s, items).0)
    decreases |items|
  {
    hide Retry;
    hide HowMany;
    if items == [] {
      NoLeaves(s);
    } else {
      var s0 := s.(batches := s.batches + 1);
      RetryIsBounded(w, c, s0, items, 0);
      FailuresGrow(w, c, s0, items, 0);
      var (s1, verdict) := Retry(w, c, s0, items, 0);
      if verdict == TooLarge && |items| > 1 {
        var midpoint := |items| / 2;
        RequestsSentAreAcknowledged(w, c, s1, items[..midpoint]);
        var m := SendEvents(w, c, s1, items[..midpoint]).0;
        RequestsSentAreAcknowledged(w, c, m, items[midpoint..]);
        var t := SendEvents(w, c, m, items[midpoint..]).0;
        CountsTwice(s1, m, t);
        assert NewLeaves(s, t) == NewLeaves(s1, t);
      } else {
        var t := SendEvents(w, c, s, items).0;
        match verdict
        case Accepted => CountsOne(s, t, items, Handshake.Acknowledged);
        case NotAccepted => CountsOne(s, t, items, Handshake.Deferred);
        case Overflow => CountsOne(s, t, items, Handshake.Deferred);
        case Permanent => CountsOne(s, t, items, Handshake.Rejected);
        case TooLarge =>
          assert t == SplitOrDrop(w, c, s1, items).0 == Finish(FailOne(s1), items, Handshake.Rejected);
          CountsOne(s, t, items, Handshake.Rejected);
      }
    }
  }

  lemma NoLeaves(s: Wire)
    ensures CountsLeaves(s, s)
  {
    assert NewLeaves(s, s) == [];
  }

  lemma {:induction false} LeavesAtMostItems(leaves: seq<Handshake.Leaf>)
    requires NonEmptyLeaves(leaves)
    ensures |leaves| <= |Handshake.LeafItems(leaves)|
  {
    if leaves != [] {
      assert leaves[0] in leaves;
      LeavesAtMostItems(leaves[1..]);
    }
  }

  /** `n` items cause at most 2n - 1 batch sends and at most (2n - 1)(retry_attempts + 1) POSTs. */
  lemma SendCost(w: World, c: Config, s: Wire, items: seq<Event>)
    requires items != []
    ensures var t := SendEvents(w, c, s, items).0;
      && t.batches - s.batches <= 2 * |items| - 1
      && |t.posts| - |s.posts| <= (2 * |items| - 1) * (c.retryAttempts + 1)
  {
    hide SendEvents;
    SendCoversBatch(w, c, s, items);
    var t := SendEvents(w, c, s, items).0;
    LeavesAtMostItems(NewLeaves(s, t));
    MulAdd(t.batches - s.batches, 2 * |items| - 1 - (t.batches - s.batches), c.retryAttempts + 1);
  }

  /** How deep the splitting goes. */
  function SplitDepth(w: World, c: Config, s: Wire, items: seq<Event>): nat
    decreases |items|
  {
    if items == [] then 0
    else
      var (s1, verdict) := Retry(w, c, s.(batches := s.batches + 1), items, 0);
      if verdict != TooLarge || |items| <= 1 then 0
      else
        var midpoint := |items| / 2;
        var left := SplitDepth(w, c, s1, items[..midpoint]);
        var right := SplitDepth(w, c, SendEvents(w, c, s1, items[..midpoint]).0, items[midpoint..]);
        1 + if left < right then right else left
  }

  /** The recursion is logarithmically deep. */
  lemma {:induction false} SplitDepthIsLogarithmic(w: World, c: Config, s: Wire, items: seq<Event>, k: nat)
    requires |items| <= Pow2(k)
    ensures SplitDepth(w, c, s, items) <= k
    decreases |items|
  {
    hide Retry;
    hide SendEvents;
    if items != [] {
      var (s1, verdict) := Retry(w, c, s.(batches := s.batches + 1), items, 0);
      if verdict == TooLarge && |items| > 1 {
        var midpoint := |items| / 2;
        SplitDepthIsLogarithmic(w, c, s1, items[..midpoint], k - 1);
        SplitDepthIsLogarithmic(w, c, SendEvents(w, c, s1, items[..midpoint]).0, items[midpoint..], k - 1);
      }
    }
  }
}
