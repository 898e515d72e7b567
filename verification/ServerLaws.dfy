/** What a send comes to against particular kinds of server, with no other task using limiter or breaker. */
module ServerLaws {
  import opened Common
  import opened BoundedQueue
  import opened Sending
  import opened Delivery
  import Handshake
  import RateLimiting
  import CircuitBreaking
  import Backoff

  ghost predicate Quiet(w: World) {
    forall k: nat, now: real, shared: Shared :: w.others(k, now, shared) == shared
  }

  function Mode(s: Wire): CircuitBreaking.Mode {
    s.shared.breaker.mode
  }

  function Failures(s: Wire): nat {
    s.shared.breaker.failureCount
  }

  /** Exactly these replies are counted by the circuit breaker. */
  lemma CountedReplies(r: Response)
    ensures CountsAsFailure(HandleResponse(r)) <==>
      || r.NoReply?
      || (r.Reply? && (r.status == 401 || r.status == 403 || r.status == 429 || r.status >= 500))
  {
  }

  // ---------- the limiter ----------

  /** What the limiter keeps when it is asked now. */
  function Kept(c: Config, s: Wire): seq<real> {
    RateLimiting.Recent(s.shared.calls, s.now, c.window)
  }

  lemma KeptIsBounded(c: Config, s: Wire)
    ensures |Kept(c, s)| <= |s.shared.calls|
    ensures Admits(c, s) <==> |Kept(c, s)| < c.maxCalls
  {
    RateLimiting.RecentMembers(s.shared.calls, s.now, c.window);
  }

  /** A refused attempt sleeps until the limiter admits again, so the next one gets through. */
  lemma WaitEarnsAdmission(w: World, c: Config, s: Wire, batch: seq<Event>, attempt: nat) returns (t: Wire)
    requires Quiet(w) && 0 < c.maxCalls && |s.shared.calls| <= c.maxCalls && !Admits(c, s)
    ensures Attempt(w, c, s, batch, attempt) == Again(t)
    ensures Admits(c, t) && |t.shared.calls| <= c.maxCalls && (LetsStart(c, s) ==> LetsStart(c, t))
    ensures t.posts == s.posts && t.leaves == s.leaves && t.batches == s.batches && t.refusals == s.refusals
    ensures t.shared.breaker == s.shared.breaker && t.requestsFailed == s.requestsFailed
  {
    KeptIsBounded(c, s);
    var kept := Kept(c, s);
    var wait := RateLimiting.RetryAfter(c.window, kept, s.now);
    t := Sleep(w, Acquired(c, s), wait);
    RateLimiting.RecentMembers(kept, t.now, c.window);
    assert t.now - RateLimiting.Least(kept) >= c.window;
  }

  lemma CallsStayBounded(w: World, c: Config, s: Wire, batch: seq<Event>, attempt: nat)
    requires Quiet(w) && |s.shared.calls| <= c.maxCalls
    ensures |Attempt(w, c, s, batch, attempt).wire.shared.calls| <= c.maxCalls
    ensures |Attempt(w, c, s, batch, attempt).wire.shared.calls| <= |s.shared.calls| + 1
  {
    RateLimiting.RecentMembers(s.shared.calls, s.now, c.window);
  }

  /** With no other caller the limiter never refuses two attempts in a row: at most every other one is wasted on it. */
  lemma {:induction false} NeverStarvedTwice(w: World, c: Config, s: Wire, batch: seq<Event>, attempt: nat)
    requires Quiet(w) && 0 < c.maxCalls && |s.shared.calls| <= c.maxCalls
    requires attempt <= c.retryAttempts + 1
    ensures 2 * Starved(w, c, s, batch, attempt) <=
      c.retryAttempts + 1 - attempt + if Admits(c, s) then 0 else 1
    decreases c.retryAttempts + 1 - attempt
  {
    hide Attempt;
    hide Admits;
    if attempt <= c.retryAttempts {
      CallsStayBounded(w, c, s, batch, attempt);
      var r := Attempt(w, c, s, batch, attempt);
      if !Admits(c, s) {
        var t := WaitEarnsAdmission(w, c, s, batch, attempt);
        NeverStarvedTwice(w, c, t, batch, attempt + 1);
      } else if r.Again? {
        NeverStarvedTwice(w, c, r.wire, batch, attempt + 1);
      }
    }
  }

  /** A limiter with room for every attempt refuses none. */
  lemma {:induction false} RoomForAll(w: World, c: Config, s: Wire, batch: seq<Event>, attempt: nat)
    requires Quiet(w) && attempt <= c.retryAttempts + 1
    requires |s.shared.calls| + (c.retryAttempts + 1 - attempt) <= c.maxCalls
    ensures Starved(w, c, s, batch, attempt) == 0
    decreases c.retryAttempts + 1 - attempt
  {
    hide Attempt;
    hide Admits;
    if attempt <= c.retryAttempts {
      KeptIsBounded(c, s);
      CallsStayBounded(w, c, s, batch, attempt);
      var r := Attempt(w, c, s, batch, attempt);
      if r.Again? {
        RoomForAll(w, c, r.wire, batch, attempt + 1);
      }
    }
  }

  // ---------- a server that is down ----------

  ghost predicate Down(w: World) {
    forall n: nat, batch: seq<Event> :: IsFailure(w.server(n, batch))
  }

  lemma DownAttempt(w: World, c: Config, s: Wire, batch: seq<Event>, attempt: nat) returns (s': Wire)
    requires Quiet(w) && Down(w) && Admits(c, s)
    ensures Attempt(w, c, s, batch, attempt) == BackOff(w, c, s', attempt)
    ensures s'.slept == s.slept && s'.requestsFailed == s.requestsFailed && s'.now >= s.now
    ensures s'.shared.calls == Kept(c, s) + [s.now]
  {
    ReplyKinds(w.server(|s.posts|, batch));
    var s1 := Acquired(c, s);
    var s2 := Entered(c, s1);
    s' := if LetsStart(c, s1) then Call(w, c, s2, batch).0 else s2.(refusals := s2.refusals + 1);
  }

  /** A failed attempt with another one to come: it sleeps its delay, and a delay of a whole window forgets the call. */
  lemma DownSleeps(w: World, c: Config, s: Wire, batch: seq<Event>, attempt: nat) returns (t: Wire)
    requires Quiet(w) && Down(w) && Admits(c, s) && c.backoffFactor >= 0.0
    requires attempt < 1024 && attempt < c.retryAttempts
    ensures Attempt(w, c, s, batch, attempt) == Again(t)
    ensures t.slept == s.slept + Backoff.Delay(attempt, c.backoffFactor, 60.0)
    ensures t.requestsFailed == s.requestsFailed
    ensures |t.shared.calls| == |Kept(c, s)| + 1 && |Kept(c, t)| <= |Kept(c, s)| + 1
    ensures c.window <= Backoff.Delay(attempt, c.backoffFactor, 60.0) ==> |Kept(c, t)| <= |Kept(c, s)|
  {
    var s' := DownAttempt(w, c, s, batch, attempt);
    var delay := Backoff.Delay(attempt, c.backoffFactor, 60.0);
    DelayIsNonNegative(c, attempt);
    hide Attempt;
    hide Backoff.Delay;
    t := Sleep(w, s', delay);
    RateLimiting.RecentAppend(Kept(c, s), s.now, t.now, c.window);
    RateLimiting.RecentMembers(Kept(c, s), t.now, c.window);
  }

  lemma {:induction false} DownOverflows(w: World, c: Config, s: Wire, batch: seq<Event>, attempt: nat)
    requires Quiet(w) && Down(w) && c.backoffFactor >= 0.0
    requires 0 < c.maxCalls && |s.shared.calls| <= c.maxCalls
    requires attempt <= 1025 && attempt <= c.retryAttempts
    requires c.retryAttempts >= 1024
    requires c.retryAttempts == 1024 ==>
      c.window <= Backoff.Delay(1023, c.backoffFactor, 60.0)
    requires attempt == c.retryAttempts || attempt > 1024 ==> Admits(c, s)
    ensures Retry(w, c, s, batch, attempt).1 == Overflow
    ensures Retry(w, c, s, batch, attempt).0.requestsFailed == s.requestsFailed
    decreases c.retryAttempts + 1 - attempt
  {
    hide Attempt;
    hide Admits;
    hide Backoff.Delay;
    if !Admits(c, s) {
      var t := WaitEarnsAdmission(w, c, s, batch, attempt);
      DownOverflows(w, c, t, batch, attempt + 1);
    } else if attempt < 1024 {
      var t := DownSleeps(w, c, s, batch, attempt);
      KeptIsBounded(c, s);
      KeptIsBounded(c, t);
      DownOverflows(w, c, t, batch, attempt + 1);
    } else {
      var s' := DownAttempt(w, c, s, batch, attempt);
    }
  }

  /**
   Against a server that is down the overflow escapes the retry loop exactly from 1024 retries on, whatever the
   limiter and the breaker remember: an attempt the limiter refuses is followed by one it admits. With exactly
   1024 retries the last attempt must be admitted, as it is when the delay before it is at least a window.
   */
  lemma {:induction false} DownServerOverflows(w: World, c: Config, s: Wire, batch: seq<Event>)
    requires Quiet(w) && Down(w) && c.backoffFactor >= 0.0
    requires 0 < c.maxCalls && |s.shared.calls| <= c.maxCalls
    requires c.retryAttempts == 1024 ==>
      c.window <= Backoff.Delay(1023, c.backoffFactor, 60.0)
    ensures Retry(w, c, s, batch, 0).1 == Overflow <==> c.retryAttempts >= 1024
  {
    hide Retry;
    hide Backoff.Delay;
    RetryIsBounded(w, c, s, batch, 0);
    if c.retryAttempts >= 1024 {
      DownOverflows(w, c, s, batch, 0);
    }
  }

  /** The limiter and breaker that every transport has. */
  function TransportConfig(retryAttempts: nat, backoffFactor: real): Config {
    Config(retryAttempts, backoffFactor, 100, 60.0, 5, 60.0)
  }

  /** The transport's own limiter never holds more than 100 calls, so nothing but 1024 retries brings the overflow about. */
  lemma TransportOverflows(w: World, s: Wire, batch: seq<Event>, retryAttempts: nat, backoffFactor: real)
    requires Quiet(w) && Down(w) && backoffFactor >= 0.0 && |s.shared.calls| <= 100
    requires retryAttempts == 1024 ==>
      Backoff.RawDelay(1023, backoffFactor) >= 60.0
    ensures Retry(w, TransportConfig(retryAttempts, backoffFactor), s, batch, 0).1 == Overflow
       <==> retryAttempts >= 1024
  {
    hide Retry;
    hide Backoff.RawDelay;
    DownServerOverflows(w, TransportConfig(retryAttempts, backoffFactor), s, batch);
  }

  lemma {:induction false} DownRetry(w: World, c: Config, s: Wire, batch: seq<Event>, attempt: nat, j: nat)
    requires Quiet(w) && Down(w) && c.backoffFactor >= 0.0
    requires attempt <= c.retryAttempts && attempt <= 1024
    requires j < c.retryAttempts ==> c.window <= Backoff.Delay(j, c.backoffFactor, 60.0)
    requires |Kept(c, s)| + (if attempt < Min(j, c.retryAttempts) then Min(j, c.retryAttempts) - attempt else 0) < c.maxCalls
    ensures var (t, verdict) := Retry(w, c, s, batch, attempt);
      if c.retryAttempts >= 1024 then verdict == Overflow && t.requestsFailed == s.requestsFailed
      else
        && verdict == NotAccepted
        && t.requestsFailed == s.requestsFailed + 1
        && t.slept == s.slept + Backoff.TotalDelay(c.retryAttempts, c.backoffFactor, 60.0)
                              - Backoff.TotalDelay(attempt, c.backoffFactor, 60.0)
    decreases c.retryAttempts + 1 - attempt
  {
    hide Attempt;
    hide Admits;
    hide Backoff.Delay;
    KeptIsBounded(c, s);
    if attempt < 1024 && attempt < c.retryAttempts {
      var t := DownSleeps(w, c, s, batch, attempt);
      if j <= attempt {
        Backoff.DelayGrows(j, attempt, c.backoffFactor, 60.0);
      }
      DownRetry(w, c, t, batch, attempt + 1, j);
    } else {
      var s' := DownAttempt(w, c, s, batch, attempt);
    }
  }

  /**
   A server that is down costs exactly the sum of the backoff delays, at most backoff_factor * (2^R - 1) and at
   most 60 R seconds for R retries, and one failed request, if the limiter refuses no attempt: it has room for
   the attempts up to the first one, number `j`, whose delay outlasts the window, and from then on forgets each call
   before the next.
   */
  lemma DownServerCost(w: World, c: Config, s: Wire, batch: seq<Event>, j: nat)
    requires Quiet(w) && Down(w) && c.backoffFactor >= 0.0
    requires j < c.retryAttempts ==> c.window <= Backoff.Delay(j, c.backoffFactor, 60.0)
    requires |Kept(c, s)| + Min(j, c.retryAttempts) < c.maxCalls
    ensures var (t, verdict) := Retry(w, c, s, batch, 0);
      && (verdict == Overflow <==> c.retryAttempts >= 1024)
      && (verdict != Overflow ==>
        && verdict == NotAccepted
        && t.requestsFailed == s.requestsFailed + 1
        && t.slept - s.slept == Backoff.TotalDelay(c.retryAttempts, c.backoffFactor, 60.0)
        && t.slept - s.slept <= Backoff.GeometricSum(c.retryAttempts, c.backoffFactor)
        && t.slept - s.slept <= 60.0 * c.retryAttempts as real)
  {
    hide Retry;
    hide Backoff.Delay;
    hide Backoff.GeometricSum;
    DownRetry(w, c, s, batch, 0, j);
    Backoff.TotalDelayCapped(c.retryAttempts, c.backoffFactor, 60.0);
    Backoff.TotalDelayGeometric(c.retryAttempts, c.backoffFactor, 60.0);
  }

  /** For a whole batch that is False and one failed request, whether the retries end or overflow, and nothing is split. */
  lemma {:induction false} DownServerSend(w: World, c: Config, s: Wire, items: seq<Event>, j: nat)
    requires Quiet(w) && Down(w) && c.backoffFactor >= 0.0 && items != []
    requires j < c.retryAttempts ==> c.window <= Backoff.Delay(j, c.backoffFactor, 60.0)
    requires |Kept(c, s)| + Min(j, c.retryAttempts) < c.maxCalls
    ensures var (t, ok) := SendEvents(w, c, s, items);
      && !ok
      && t.requestsSent == s.requestsSent && t.requestsFailed == s.requestsFailed + 1
      && t.leaves == s.leaves + [Handshake.Leaf(items, Handshake.Deferred)]
  {
    hide Retry;
    hide Backoff.Delay;
    var s0 := s.(batches := s.batches + 1);
    DownRetry(w, c, s0, items, 0, j);
    RetryIsBounded(w, c, s0, items, 0);
  }

  /**
   What that comes to for the transport's own limiter and a backoff factor of at least one, the default: the seventh
   delay lasts a minute, so room for seven calls is enough for any number of retries.
   */
  lemma TransportDownCost(w: World, s: Wire, batch: seq<Event>, retryAttempts: nat, backoffFactor: real)
    requires Quiet(w) && Down(w) && backoffFactor >= 1.0
    requires |Kept(TransportConfig(retryAttempts, backoffFactor), s)| <= 93
    ensures var (t, verdict) := Retry(w, TransportConfig(retryAttempts, backoffFactor), s, batch, 0);
      && (verdict == Overflow <==> retryAttempts >= 1024)
      && (verdict != Overflow ==>
        && verdict == NotAccepted
        && t.requestsFailed == s.requestsFailed + 1
        && t.slept - s.slept == Backoff.TotalDelay(retryAttempts, backoffFactor, 60.0))
  {
    hide Retry;
    assert Pow2(3) == 8;
    assert Pow2(6) == 64;
    Backoff.Monotone(64.0, 1.0, backoffFactor);
    DownServerCost(w, TransportConfig(retryAttempts, backoffFactor), s, batch, 6);
  }

  // ---------- a server that is busy, and one that answers nothing of use ----------

  /** Every reply is a 429 with this Retry-After header. */
  ghost predicate Busy(w: World, header: Header) {
    forall n: nat, batch: seq<Event> :: IsBusy(w.server(n, batch)) && w.server(n, batch).retryAfter == header
  }

  /** `k` more failures leave the breaker closed until the last one, and the limiter admits as many calls. */
  ghost predicate RoomFor(c: Config, s: Wire, k: nat) {
    Mode(s) == CircuitBreaking.Closed && Failures(s) + k <= c.threshold && |s.shared.calls| + k <= c.maxCalls
  }

  /** Limiter and breaker let every attempt from number `attempt` on become a POST. */
  predicate Unhindered(w: World, c: Config, s: Wire, batch: seq<Event>, attempt: nat)
    requires attempt <= c.retryAttempts + 1
  {
    Starved(w, c, s, batch, attempt) == 0 && Retry(w, c, s, batch, attempt).0.refusals == s.refusals
  }

  lemma BusyAttempt(w: World, c: Config, s: Wire, batch: seq<Event>, attempt: nat, header: Header)
    requires Quiet(w) && Busy(w, header)
    ensures var r := Attempt(w, c, s, batch, attempt);
      && s.posts <= r.wire.posts
      && s.refusals <= r.wire.refusals
      && Failures(r.wire) + |s.posts| == Failures(s) + |r.wire.posts|
      && (r.Stop? ==> r.verdict == Overflow && s.refusals < r.wire.refusals)
      && (Admits(c, s) && r.wire.refusals == s.refusals ==>
        if attempt < c.retryAttempts then
          r.wire.slept == s.slept + AskedDelay(header) && r.wire.requestsFailed == s.requestsFailed
        else r.wire.slept == s.slept && r.wire.requestsFailed == s.requestsFailed + 1)
  {
    ReplyKinds(w.server(|s.posts|, batch));
    hide HandleResponse;
  }

  lemma {:induction false} BusyRefusals(w: World, c: Config, s: Wire, batch: seq<Event>, attempt: nat, header: Header)
    requires Quiet(w) && Busy(w, header) && attempt <= c.retryAttempts + 1
    ensures Retry(w, c, s, batch, attempt).0.refusals >= s.refusals
    decreases c.retryAttempts + 1 - attempt
  {
    hide Attempt;
    if attempt <= c.retryAttempts {
      BusyAttempt(w, c, s, batch, attempt, header);
      var r := Attempt(w, c, s, batch, attempt);
      if r.Again? {
        BusyRefusals(w, c, r.wire, batch, attempt + 1, header);
      }
    }
  }

  /**
   A server that keeps answering 429 never gets a batch accepted, and every one of its answers counts against the
   circuit breaker, tripped or not. When neither limiter nor breaker hinders the sender it is obeyed exactly: before
   each retry it sleeps the advertised time, capped at 300 seconds.
   */
  lemma {:induction false} BusyServerCost(w: World, c: Config, s: Wire, batch: seq<Event>, attempt: nat, header: Header)
    requires Quiet(w) && Busy(w, header) && attempt <= c.retryAttempts
    ensures var (t, verdict) := Retry(w, c, s, batch, attempt);
      && (verdict == NotAccepted || verdict == Overflow)
      && Failures(t) - Failures(s) == |t.posts| - |s.posts|
      && (Unhindered(w, c, s, batch, attempt) ==>
        && verdict == NotAccepted
        && t.requestsFailed == s.requestsFailed + 1
        && |t.posts| == |s.posts| + (c.retryAttempts + 1 - attempt)
        && t.slept == s.slept + Backoff.Times(c.retryAttempts - attempt, AskedDelay(header)))
    decreases c.retryAttempts + 1 - attempt
  {
    hide Attempt;
    hide Admits;
    hide Backoff.Times;
    BusyAttempt(w, c, s, batch, attempt, header);
    AttemptKind(w, c, s, batch, attempt);
    var delay := AskedDelay(header);
    Backoff.TimesStep(0, delay);
    var r := Attempt(w, c, s, batch, attempt);
    if r.Again? {
      BusyRefusals(w, c, r.wire, batch, attempt + 1, header);
      if attempt < c.retryAttempts {
        BusyServerCost(w, c, r.wire, batch, attempt + 1, header);
        Backoff.TimesStep(c.retryAttempts - attempt - 1, delay);
      }
    }
  }

  lemma RoomShrinks(w: World, c: Config, s: Wire, batch: seq<Event>, attempt: nat, header: Header, room: nat)
    requires Quiet(w) && Busy(w, header) && RoomFor(c, s, room + 1)
    ensures var t := Attempt(w, c, s, batch, attempt).wire;
      t.refusals == s.refusals && (room > 0 ==> RoomFor(c, t, room))
  {
    RateLimiting.RecentMembers(s.shared.calls, s.now, c.window);
  }

  /** With room in limiter and breaker for every attempt, a busy server is unhindered. */
  lemma {:induction false} RoomIsUnhindered(w: World, c: Config, s: Wire, batch: seq<Event>, attempt: nat, header: Header)
    requires Quiet(w) && Busy(w, header) && attempt <= c.retryAttempts
    requires RoomFor(c, s, c.retryAttempts + 1 - attempt)
    ensures Unhindered(w, c, s, batch, attempt)
    decreases c.retryAttempts + 1 - attempt
  {
    hide Attempt;
    hide Starved;
    RoomForAll(w, c, s, batch, attempt);
    RoomShrinks(w, c, s, batch, attempt, header, c.retryAttempts - attempt);
    BusyAttempt(w, c, s, batch, attempt, header);
    var t := Attempt(w, c, s, batch, attempt).wire;
    assert Retry(w, c, s, batch, attempt) == Retry(w, c, t, batch, attempt + 1);
    if attempt < c.retryAttempts {
      RoomIsUnhindered(w, c, t, batch, attempt + 1, header);
    }
  }

  ghost predicate Useless(w: World) {
    forall n: nat, batch: seq<Event> :: IsUseless(w.server(n, batch))
  }

  lemma UselessAttempt(w: World, c: Config, s: Wire, batch: seq<Event>, attempt: nat)
    requires Quiet(w) && Useless(w) && LetsStart(c, s)
    ensures var r := Attempt(w, c, s, batch, attempt);
      && r.Again?
      && LetsStart(c, r.wire)
      && s.posts <= r.wire.posts
      && r.wire.requestsFailed - s.requestsFailed == |r.wire.posts| - |s.posts| == (if Admits(c, s) then 1 else 0)
      && (Admits(c, s) ==> r.wire.slept == s.slept)
  {
    if !Admits(c, s) {
      var kept := Kept(c, s);
      KeptIsBounded(c, s);
      assert RateLimiting.RetryAfter(c.window, kept, s.now) >= 0.0;
    }
  }

  /**
   A falsy answer is retried at once: each attempt is a POST and a failed request, unless the limiter refuses it, and
   nothing but the limiter makes the sender sleep. The breaker may be closed, half open or ready to recover.
   */
  lemma {:induction false} UselessServerCost(w: World, c: Config, s: Wire, batch: seq<Event>, attempt: nat)
    requires Quiet(w) && Useless(w) && LetsStart(c, s) && attempt <= c.retryAttempts + 1
    ensures var (t, verdict) := Retry(w, c, s, batch, attempt);
      var starved := Starved(w, c, s, batch, attempt);
      && verdict == NotAccepted
      && t.requestsFailed - s.requestsFailed == c.retryAttempts + 1 - attempt - starved
      && |t.posts| - |s.posts| == c.retryAttempts + 1 - attempt - starved
      && (starved == 0 ==> t.slept == s.slept)
    decreases c.retryAttempts + 1 - attempt
  {
    hide Attempt;
    hide Admits;
    hide LetsStart;
    if attempt <= c.retryAttempts {
      UselessAttempt(w, c, s, batch, attempt);
      UselessServerCost(w, c, Attempt(w, c, s, batch, attempt).wire, batch, attempt + 1);
    }
  }

  // ---------- a server that caps the batch size ----------

  /** 413 exactly above `cap` items, acceptance otherwise. */
  ghost predicate Capped(w: World, cap: nat) {
    forall n: nat, batch: seq<Event> ::
      if |batch| > cap then IsTooLarge(w.server(n, batch))
      else IsAcceptance(w.server(n, batch))
  }

  /** The batch sends that splitting `n` items down to `cap` takes. */
  function Needed(n: nat, cap: nat): (k: nat)
    requires cap >= 1
    ensures k >= 1
  {
    if n <= cap then 1 else 1 + Needed(n / 2, cap) + Needed(n - n / 2, cap)
  }

  lemma AboveQuotient(q: nat, n: nat, h: nat)
    requires h > 0
    ensures q > n / h ==> q * h > n
  {
    if q > n / h {
      MulAdd(n / h + 1, q - n / h - 1, h);
    }
  }

  lemma QuotientsAdd(a: nat, b: nat, h: nat)
    requires h > 0
    ensures a / h + b / h <= (a + b) / h
  {
    MulAdd(a / h, b / h, h);
    AboveQuotient(a / h + b / h, a + b, h);
  }

  /** Fewer than two sends for each accepted batch of the least size. */
  lemma {:induction false} NeededIsSmall(n: nat, cap: nat)
    requires cap >= 1 && n >= (cap + 1) / 2
    ensures Needed(n, cap) <= 2 * (n / ((cap + 1) / 2)) - 1
  {
    var h := (cap + 1) / 2;
    if n <= cap {
      QuotientsAdd(n - h, h, h);
    } else {
      NeededIsSmall(n / 2, cap);
      NeededIsSmall(n - n / 2, cap);
      QuotientsAdd(n / 2, n - n / 2, h);
    }
  }

  /**
   Limiter and breaker will see `sends` batches through: either a retry is configured, so that a refused attempt is
   made up for, or the limiter has room for them all.
   */
  predicate Ready(c: Config, s: Wire, sends: nat) {
    && LetsStart(c, s)
    && ((0 < c.retryAttempts && 0 < c.maxCalls && |s.shared.calls| <= c.maxCalls) || |s.shared.calls| + sends <= c.maxCalls)
  }

  /** An attempt the limiter admits. */
  lemma CappedAttempt(w: World, c: Config, s: Wire, batch: seq<Event>, cap: nat, attempt: nat)
    requires Quiet(w) && Capped(w, cap) && LetsStart(c, s) && Admits(c, s)
    ensures var r := Attempt(w, c, s, batch, attempt);
      && r == Stop(r.wire, if |batch| > cap then TooLarge else Accepted)
      && LetsStart(c, r.wire)
      && r.wire.leaves == s.leaves && r.wire.batches == s.batches
      && |r.wire.shared.calls| <= |s.shared.calls| + 1 && |r.wire.shared.calls| <= c.maxCalls
  {
    RateLimiting.RecentMembers(s.shared.calls, s.now, c.window);
  }

  lemma CappedRetry(w: World, c: Config, s: Wire, batch: seq<Event>, cap: nat, sends: nat)
    requires Quiet(w) && Capped(w, cap) && sends > 0 && Ready(c, s, sends)
    ensures var (t, verdict) := Retry(w, c, s, batch, 0);
      && verdict == (if |batch| > cap then TooLarge else Accepted)
      && Ready(c, t, sends - 1)
      && t.leaves == s.leaves && t.batches == s.batches
  {
    hide Attempt;
    hide Admits;
    hide LetsStart;
    KeptIsBounded(c, s);
    if Admits(c, s) {
      CappedAttempt(w, c, s, batch, cap, 0);
    } else {
      var t := WaitEarnsAdmission(w, c, s, batch, 0);
      CappedAttempt(w, c, t, batch, cap, 1);
      assert Retry(w, c, s, batch, 0) == Retry(w, c, t, batch, 1);
    }
  }

  /** What a capped send adds: acknowledged leaves that cover the items and keep to the size range. */
  ghost predicate CappedLeaves(leaves: seq<Handshake.Leaf>, items: seq<Event>, cap: nat) {
    && Handshake.LeafItems(leaves) == items
    && (forall l | l in leaves :: l.fate == Handshake.Acknowledged && |l.items| <= cap)
    && (|items| >= (cap + 1) / 2 ==> forall l | l in leaves :: |l.items| >= (cap + 1) / 2)
  }

  lemma CappedHalves(a: seq<Handshake.Leaf>, b: seq<Handshake.Leaf>, items: seq<Event>, cap: nat)
    requires |items| > cap
    requires CappedLeaves(a, items[..|items| / 2], cap) && CappedLeaves(b, items[|items| / 2..], cap)
    ensures CappedLeaves(a + b, items, cap)
  {
    LeafItemsAppend(a, b);
    assert items[..|items| / 2] + items[|items| / 2..] == items;
  }

  lemma CappedSingle(items: seq<Event>, cap: nat)
    requires |items| <= cap
    ensures CappedLeaves([Handshake.Leaf(items, Handshake.Acknowledged)], items, cap)
  {
    OneLeaf(items, Handshake.Acknowledged);
  }

  lemma {:induction false} CappedSend(w: World, c: Config, s: Wire, items: seq<Event>, cap: nat, spare: nat)
    requires cap >= 1 && items != []
    requires Quiet(w) && Capped(w, cap) && Ready(c, s, Needed(|items|, cap) + spare)
    ensures var (t, ok) := SendEvents(w, c, s, items);
      && ok
      && s.leaves <= t.leaves
      && CappedLeaves(NewLeaves(s, t), items, cap)
      && t.batches == s.batches + Needed(|items|, cap)
      && Ready(c, t, spare)
    decreases |items|
  {
    hide Retry;
    hide Ready;
    hide CappedLeaves;
    var s0 := s.(batches := s.batches + 1);
    StillReady(c, s, s0, Needed(|items|, cap) + spare);
    CappedRetry(w, c, s0, items, cap, Needed(|items|, cap) + spare);
    var (s1, verdict) := Retry(w, c, s0, items, 0);
    if |items| <= cap {
      var t := Finish(s1, items, Handshake.Acknowledged);
      assert SendEvents(w, c, s, items) == (t, true);
      assert NewLeaves(s, t) == [Handshake.Leaf(items, Handshake.Acknowledged)];
      StillReady(c, s1, t, spare);
      CappedSingle(items, cap);
    } else {
      var midpoint := |items| / 2;
      CappedSend(w, c, s1, items[..midpoint], cap, Needed(|items[midpoint..]|, cap) + spare);
      var m := SendEvents(w, c, s1, items[..midpoint]).0;
      CappedSend(w, c, m, items[midpoint..], cap, spare);
      var t := SendEvents(w, c, m, items[midpoint..]).0;
      assert SendEvents(w, c, s, items).0 == t;
      assert NewLeaves(s, t) == NewLeaves(s1, m) + NewLeaves(m, t);
      CappedHalves(NewLeaves(s1, m), NewLeaves(m, t), items, cap);
    }
  }

  lemma StillReady(c: Config, s: Wire, t: Wire, sends: nat)
    requires Ready(c, s, sends) && t.shared == s.shared && t.now == s.now
    ensures Ready(c, t, sends)
  {
  }

  lemma {:induction false} ManyLeaves(leaves: seq<Handshake.Leaf>, least: nat)
    requires forall l | l in leaves :: |l.items| >= least
    ensures |leaves| * least <= |Handshake.LeafItems(leaves)|
  {
    if leaves != [] {
      assert leaves[0] in leaves;
      ManyLeaves(leaves[1..], least);
      MulAdd(1, |leaves| - 1, least);
    }
  }

  /**
   A server that answers 413 exactly above `cap` items takes every item exactly once and in order, and drops none,
   in exactly `Needed` batch sends. When the batch is larger than that, each accepted batch has between
   (cap + 1) / 2 and `cap` items, which bounds their number and the sends. One configured retry is enough for any
   limiter; without retries the limiter must have room for the sends.
   */
  lemma CappedServerTakesAll(w: World, c: Config, s: Wire, items: seq<Event>, cap: nat)
    requires cap >= 1 && items != []
    requires Quiet(w) && Capped(w, cap) && Ready(c, s, Needed(|items|, cap))
    ensures var (t, ok) := SendEvents(w, c, s, items);
      && ok
      && s.leaves <= t.leaves
      && Handshake.LeafItems(NewLeaves(s, t)) == items
      && (forall l | l in NewLeaves(s, t) :: l.fate == Handshake.Acknowledged && |l.items| <= cap)
      && t.batches == s.batches + Needed(|items|, cap)
      && (|items| > cap ==>
        && (forall l | l in NewLeaves(s, t) :: |l.items| >= (cap + 1) / 2)
        && |NewLeaves(s, t)| * ((cap + 1) / 2) <= |items|
        && t.batches - s.batches <= 2 * (|items| / ((cap + 1) / 2)) - 1)
  {
    hide SendEvents;
    hide Needed;
    CappedSend(w, c, s, items, cap, 0);
    var t := SendEvents(w, c, s, items).0;
    if |items| > cap {
      ManyLeaves(NewLeaves(s, t), (cap + 1) / 2);
      NeededIsSmall(|items|, cap);
    }
  }

  // ---------- a server that never fails transiently ----------

  /** Every reply is a success, a permanent rejection or merely falsy: none is counted by the breaker. */
  ghost predicate Harmless(w: World) {
    forall n: nat, batch: seq<Event> :: !IsFailure(w.server(n, batch)) && !IsBusy(w.server(n, batch))
  }

  /** From `s` to `t` the breaker stayed closed, refused nobody, and counted no failure. */
  ghost predicate NeverTripped(s: Wire, t: Wire) {
    && Mode(t) == CircuitBreaking.Closed
    && Failures(t) <= Failures(s)
    && t.refusals == s.refusals
    && s.posts <= t.posts
    && forall i | |s.posts| <= i < |t.posts| ::
      t.posts[i].breaker.mode == CircuitBreaking.Closed && t.posts[i].breaker.failureCount <= Failures(s)
  }

  lemma NeverTrippedTwice(s: Wire, m: Wire, t: Wire)
    requires NeverTripped(s, m) && NeverTripped(m, t)
    ensures NeverTripped(s, t)
  {
    assert forall i | |s.posts| <= i < |m.posts| :: t.posts[i] == m.posts[i];
  }

  lemma HarmlessAttempt(w: World, c: Config, s: Wire, batch: seq<Event>, attempt: nat)
    requires Quiet(w) && Harmless(w) && Mode(s) == CircuitBreaking.Closed
    ensures NeverTripped(s, Attempt(w, c, s, batch, attempt).wire)
  {
  }

  lemma {:induction false} HarmlessRetry(w: World, c: Config, s: Wire, batch: seq<Event>, attempt: nat)
    requires Quiet(w) && Harmless(w) && Mode(s) == CircuitBreaking.Closed
    requires attempt <= c.retryAttempts + 1
    ensures NeverTripped(s, Retry(w, c, s, batch, attempt).0)
    decreases c.retryAttempts + 1 - attempt
  {
    hide Attempt;
    if attempt <= c.retryAttempts {
      HarmlessAttempt(w, c, s, batch, attempt);
      var r := Attempt(w, c, s, batch, attempt);
      if r.Again? {
        HarmlessRetry(w, c, r.wire, batch, attempt + 1);
        NeverTrippedTwice(s, r.wire, Retry(w, c, r.wire, batch, attempt + 1).0);
      }
    }
  }

  /**
   Permanent answers never trip the breaker: through a full split recursion started from CLOSED it stays CLOSED
   after every POST, never counts a failure, and refuses no half because of its siblings.
   */
  lemma {:induction false} HarmlessServerNeverTrips(w: World, c: Config, s: Wire, items: seq<Event>)
    requires Quiet(w) && Harmless(w) && Mode(s) == CircuitBreaking.Closed
    ensures NeverTripped(s, SendEvents(w, c, s, items).0)
    decreases |items|
  {
    hide Retry;
    if items != [] {
      var s0 := s.(batches := s.batches + 1);
      HarmlessRetry(w, c, s0, items, 0);
      var (s1, verdict) := Retry(w, c, s0, items, 0);
      if verdict == TooLarge && |items| > 1 {
        var midpoint := |items| / 2;
        HarmlessServerNeverTrips(w, c, s1, items[..midpoint]);
        var m := SendEvents(w, c, s1, items[..midpoint]).0;
        HarmlessServerNeverTrips(w, c, m, items[midpoint..]);
        NeverTrippedTwice(s, s1, m);
        NeverTrippedTwice(s, m, SendEvents(w, c, m, items[midpoint..]).0);
      }
    }
  }
}
