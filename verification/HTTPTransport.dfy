/** The transport object: attempt loop, counters and recursive split, updating the limiter and breaker it owns. */
module Transport {
  import opened Common
  import opened BoundedQueue
  import opened Sending
  import Handshake
  import opened RateLimiting
  import opened CircuitBreaking
  import Backoff

  class HTTPTransport {
    const config: Config
    const world: World
    const rateLimiter: RateLimiter
    const circuitBreaker: CircuitBreaker
    var now: real
    var requestsSent: nat
    var requestsFailed: nat
    // what has happened so far
    var asks: seq<real>
    var log: seq<Occurrence>
    var awaits: nat
    var slept: real
    var posts: seq<Post>
    var refusals: nat
    var batches: nat
    var leaves: seq<Handshake.Leaf>

    ghost predicate Valid()
      reads rateLimiter, circuitBreaker
    {
      && rateLimiter.maxCalls == config.maxCalls
      && rateLimiter.timeWindow == config.window
      && circuitBreaker.failureThreshold == config.threshold
      && circuitBreaker.recoveryTimeout == config.recovery
    }

    ghost function View(): Wire
      reads this, rateLimiter, circuitBreaker
    {
      Wire(now, Shared(rateLimiter.calls, circuitBreaker.View(), asks, log), requestsSent, requestsFailed,
           awaits, slept, posts, refusals, batches, leaves)
    }

    /** A transport built at time `now`: 100 calls a minute, and a breaker that opens after 5 failures for a minute. */
    constructor (retryAttempts: nat, backoffFactor: real, world: World, now: real)
      ensures Valid() && fresh(rateLimiter) && fresh(circuitBreaker)
      ensures this.world == world
      ensures config == Config(retryAttempts, backoffFactor, 100, 60.0, 5, 60.0)
      ensures View() == Wire(now, Shared([], FRESH, [], []), 0, 0, 0, 0.0, [], 0, 0, [])
    {
      config := Config(retryAttempts, backoffFactor, 100, 60.0, 5, 60.0);
      this.world := world;
      rateLimiter := new RateLimiter(100, 60.0);
      circuitBreaker := new CircuitBreaker(5, 60.0);
      this.now := now;
      asks, log := [], [];
      requestsSent, requestsFailed, awaits, slept, posts, refusals, batches, leaves := 0, 0, 0, 0.0, [], 0, 0, [];
    }

    /** Other tasks leave limiter and breaker like this. */
    method BecomeShared(shared: Shared)
      requires Valid()
      modifies this`asks, this`log, rateLimiter, circuitBreaker
      ensures Valid() && View() == old(View()).(shared := shared)
    {
      asks, log := shared.asks, shared.log;
      rateLimiter.calls := shared.calls;
      circuitBreaker.state := shared.breaker.mode;
      circuitBreaker.failureCount := shared.breaker.failureCount;
      circuitBreaker.lastFailureTime := shared.breaker.lastFailureTime;
    }

    /** An await of at least `d` seconds: the clock moves on and other tasks use limiter and breaker. */
    method Await(d: real)
      requires Valid()
      modifies this, rateLimiter, circuitBreaker
      ensures Valid() && View() == Sending.Await(world, old(View()), d)
    {
      now := now + d + world.latency(awaits);
      var b := Breaker(circuitBreaker.state, circuitBreaker.failureCount, circuitBreaker.lastFailureTime);
      var shared := world.others(awaits, now, Shared(rateLimiter.calls, b, asks, log));
      BecomeShared(shared);
      awaits := awaits + 1;
    }

    method Sleep(d: real)
      requires Valid()
      modifies this, rateLimiter, circuitBreaker
      ensures Valid() && View() == Sending.Sleep(world, old(View()), d)
    {
      slept := slept + d;
      Await(d);
    }

    /** The POST as the circuit breaker runs it. */
    method CallThroughBreaker(batch: seq<Event>) returns (handled: Handled)
      requires Valid()
      modifies this, rateLimiter, circuitBreaker
      ensures Valid() && (View(), handled) == Call(world, config, old(View()), batch)
    {
      var at, response := now, world.server(|posts|, batch);
      handled := HandleResponse(response);
      Await(0.0);
      var before := Breaker(circuitBreaker.state, circuitBreaker.failureCount, circuitBreaker.lastFailureTime);
      if !handled.Failed? {
        circuitBreaker.RecordSuccess();
      } else if CountsAsFailure(handled) {
        circuitBreaker.RecordFailure(now);
      }
      log := log + [Ending(handled, now)];
      posts := posts + [Post(batch, response, at, before,
        Breaker(circuitBreaker.state, circuitBreaker.failureCount, circuitBreaker.lastFailureTime))];
    }

    /** Accepted, partial failure, or none of the two: try again. */
    method EvaluateSendResult(result: Handled) returns (outcome: Option<bool>)
      requires !result.Failed?
      modifies this`requestsSent, this`requestsFailed
      ensures outcome == match result
        case Truthy => Some(true)
        case Falsy => None
        case Reported(successIsFalse, hasErrors) => Some(!successIsFalse && !hasErrors)
      ensures View() == old(View()).(
        requestsSent := old(requestsSent) + (if outcome == Some(true) then 1 else 0),
        requestsFailed := old(requestsFailed) + (if outcome == Some(true) then 0 else 1))
    {
      if result.Reported? && (result.successIsFalse || result.hasErrors) {
        requestsFailed := requestsFailed + 1;
        return Some(false);
      }
      if result != Falsy {
        requestsSent := requestsSent + 1;
        return Some(true);
      }
      requestsFailed := requestsFailed + 1;
      return None;
    }

    method SleepOrRecordGiveup(attempt: nat, delay: real) returns (again: bool)
      requires Valid()
      modifies this, rateLimiter, circuitBreaker
      ensures Valid() && again == (attempt < config.retryAttempts)
      ensures View() == Sending.SleepOrRecordGiveup(world, config, old(View()), attempt, delay)
    {
      if attempt < config.retryAttempts {
        Sleep(delay);
        return true;
      }
      requestsFailed := requestsFailed + 1;
      return false;
    }

    /** The handler for an exception that is neither a 429 nor permanent; true when the delay overflows. */
    method BackOffOnError(attempt: nat) returns (overflow: bool)
      requires Valid()
      modifies this, rateLimiter, circuitBreaker
      ensures Valid()
      ensures BackOff(world, config, old(View()), attempt) == if overflow then Stop(View(), Overflow) else Again(View())
    {
      var delay := Backoff.CalculateBackoffDelay(attempt, config.backoffFactor, MAX_BACKOFF);
      if delay.None? {
        return true;
      }
      var _ := SleepOrRecordGiveup(attempt, delay.value);
      return false;
    }

    /** One pass of the attempt loop; no verdict means that the loop goes on. */
    method TryOnce(batch: seq<Event>, attempt: nat) returns (verdict: Option<Verdict>)
      requires Valid()
      modifies this, rateLimiter, circuitBreaker
      ensures Valid()
      ensures Attempt(world, config, old(View()), batch, attempt)
           == if verdict.Some? then Stop(View(), verdict.value) else Again(View())
    {
      hide Call;
      hide Sending.SleepOrRecordGiveup;
      hide BackOff;
      hide Sending.Sleep;
      hide HandleResponse;
      var admitted := rateLimiter.Acquire(now);
      asks := asks + [now];
      if !admitted {
        var retryAfter := rateLimiter.GetRetryAfter(now);
        Sleep(retryAfter);
        return None;
      }
      var started := circuitBreaker.Admit(now);
      log := log + [Asked(now)];
      var handled := Handled.Failed(OtherError);
      if started {
        handled := CallThroughBreaker(batch);
      } else {
        refusals := refusals + 1;
      }
      if !handled.Failed? {
        var outcome := EvaluateSendResult(handled);
        return if outcome.None? then None else Some(if outcome.value then Accepted else NotAccepted);
      }
      match handled.error
      case RateLimited(seconds) =>
        var _ := SleepOrRecordGiveup(attempt, RMin(seconds, MAX_RETRY_AFTER));
        return None;
      case PayloadTooLarge =>
        return Some(TooLarge);
      case PermanentClientError(_) =>
        return Some(Permanent);
      case OtherError =>
        var overflow := BackOffOnError(attempt);
        return if overflow then Some(Overflow) else None;
    }

    method SendWithRetry(batch: seq<Event>) returns (verdict: Verdict)
      requires Valid()
      modifies this, rateLimiter, circuitBreaker
      ensures Valid() && (View(), verdict) == Retry(world, config, old(View()), batch, 0)
    {
      for attempt := 0 to config.retryAttempts + 1
        invariant Valid()
        invariant Retry(world, config, View(), batch, attempt) == Retry(world, config, old(View()), batch, 0)
      {
        var v := TryOnce(batch, attempt);
        if v.Some? {
          return v.value;
        }
      }
      return NotAccepted;
    }

    /** A cancellation or the like ends the send somewhere in the middle. */
    method BeInterrupted(left: Wire)
      requires Valid()
      modifies this, rateLimiter, circuitBreaker
      ensures Valid() && View() == left
    {
      BecomeShared(left.shared);
      now, awaits, slept, posts := left.now, left.awaits, left.slept, left.posts;
      requestsSent, requestsFailed := left.requestsSent, left.requestsFailed;
      refusals, batches, leaves := left.refusals, left.batches, left.leaves;
    }

    /** True when the batch was taken or is permanently unsendable; False when the caller must keep it. */
    method SendEvents(items: seq<Event>) returns (ok: bool)
      requires Valid()
      modifies this, rateLimiter, circuitBreaker
      ensures Valid() && (View(), ok) == Sending.SendEvents(world, config, old(View()), items)
      decreases |items|, 1
    {
      hide Retry;
      hide SplitOrDrop;
      if items == [] {
        return true;
      }
      batches := batches + 1;
      var verdict := SendWithRetry(items);
      match verdict
      case Accepted =>
        leaves := leaves + [Handshake.Leaf(items, Handshake.Acknowledged)];
        return true;
      case NotAccepted =>
        leaves := leaves + [Handshake.Leaf(items, Handshake.Deferred)];
        return false;
      case TooLarge =>
        ok := SplitOrDropOnPayloadTooLarge(items);
      case Permanent =>
        requestsFailed := requestsFailed + 1;
        leaves := leaves + [Handshake.Leaf(items, Handshake.Rejected)];
        return true;
      case Overflow =>
        requestsFailed := requestsFailed + 1;
        leaves := leaves + [Handshake.Leaf(items, Handshake.Deferred)];
        return false;
    }

    method SplitOrDropOnPayloadTooLarge(items: seq<Event>) returns (ok: bool)
      requires Valid() && items != []
      modifies this, rateLimiter, circuitBreaker
      ensures Valid() && (View(), ok) == SplitOrDrop(world, config, old(View()), items)
      decreases |items|, 0
    {
      if |items| <= 1 {
        requestsFailed := requestsFailed + 1;
        leaves := leaves + [Handshake.Leaf(items, Handshake.Rejected)];
        return true;
      }
      hide Sending.SendEvents;
      var midpoint := |items| / 2;
      var left := SendEvents(items[..midpoint]);
      var right := SendEvents(items[midpoint..]);
      return left && right;
    }
  }
}
