/** The limiter and the breaker inside a send: both follow their histories, whatever other tasks do in between. */
module Histories {
  import opened Common
  import opened BoundedQueue
  import opened Sending
  import opened Delivery
  import Handshake
  import RateLimiting
  import CB = CircuitBreaking
  import Backoff

  /** Limiter and breaker are what their histories make them. */
  ghost predicate Explained(c: Config, sh: Shared) {
    && sh.calls == RateLimiting.CallsAfter(c.maxCalls, c.window, sh.asks)
    && sh.breaker == CB.Replay(c.threshold, c.recovery, sh.log)
  }

  /** The limiter was never asked later than now, nor out of order. */
  ghost predicate Orderly(sh: Shared, now: real) {
    RateLimiting.Nondecreasing(sh.asks + [now])
  }

  /** Other tasks use limiter and breaker as this one does: by asking them and reporting to them, at the time they do so. */
  ghost predicate FairOthers(w: World, c: Config) {
    forall k: nat, now: real, sh: Shared ::
      var sh' := w.others(k, now, sh);
      && (Explained(c, sh) ==> Explained(c, sh'))
      && (Orderly(sh, now) ==> Orderly(sh', now))
      && sh.asks <= sh'.asks && sh.log <= sh'.log
  }

  // ---------- each answer moves the breaker ----------

  /**
   What one answer does to the breaker: a lost reply, 401, 403, 429 or 5xx counts as a failure and opens it at the
   threshold; a 400, 404, 413 or 422 leaves it alone; anything else closes it and clears the count.
   */
  ghost predicate MovesBreaker(c: Config, p: Post) {
    if IsFailure(p.response) || IsBusy(p.response) then
      && p.breaker.failureCount == p.before.failureCount + 1
      && p.breaker.mode == (if p.before.failureCount + 1 >= c.threshold then CB.Open else p.before.mode)
      && p.breaker.lastFailureTime.Some? && p.breaker.lastFailureTime.value >= p.at
    else if IsPermanentRejection(p.response) || IsTooLarge(p.response) then p.breaker == p.before
    else
      && p.breaker.mode == CB.Closed && p.breaker.failureCount == 0
      && p.breaker.lastFailureTime == p.before.lastFailureTime
  }

  ghost predicate AllMove(c: Config, posts: seq<Post>) {
    forall p | p in posts :: MovesBreaker(c, p)
  }

  lemma CallMoves(w: World, c: Config, s: Wire, batch: seq<Event>)
    ensures var t := Call(w, c, s, batch).0; s.posts <= t.posts && AllMove(c, NewPosts(s, t))
  {
    ReplyKinds(w.server(|s.posts|, batch));
    hide HandleResponse;
    var t := Call(w, c, s, batch).0;
    assert NewPosts(s, t) == [t.posts[|s.posts|]];
  }

  lemma AttemptMoves(w: World, c: Config, s: Wire, batch: seq<Event>, attempt: nat)
    ensures var t := Attempt(w, c, s, batch, attempt).wire; s.posts <= t.posts && AllMove(c, NewPosts(s, t))
  {
    AttemptCases(w, c, s, batch, attempt);
    hide Attempt;
    var s2 := Entered(c, Acquired(c, s));
    CallMoves(w, c, s2, batch);
    var (s3, handled) := Call(w, c, s2, batch);
    hide Call;
    hide MovesBreaker;
    EvaluateFacts(w, c, s3, batch, attempt, handled);
    hide Evaluate;
    assert NewPosts(s, s) == [];
  }

  /** A failure is dated when its answer is in, not when the call started. */
  lemma FailureIsDated(w: World, c: Config, s: Wire, batch: seq<Event>, attempt: nat)
    requires Admits(c, s) && LetsStart(c, s)
    requires var r := w.server(|s.posts|, batch); IsFailure(r) || IsBusy(r)
    ensures var posts := Attempt(w, c, s, batch, attempt).wire.posts;
      && |posts| == |s.posts| + 1
      && posts[|s.posts|].at == s.now
      && posts[|s.posts|].breaker.lastFailureTime == Some(s.now + w.latency(s.awaits))
  {
    AttemptCases(w, c, s, batch, attempt);
    hide Attempt;
    ReplyKinds(w.server(|s.posts|, batch));
    hide HandleResponse;
    var (s3, handled) := Call(w, c, Entered(c, Acquired(c, s)), batch);
    EvaluateFacts(w, c, s3, batch, attempt, handled);
    hide Evaluate;
  }

  lemma MoveTwice(c: Config, s: Wire, m: Wire, t: Wire)
    requires s.posts <= m.posts && m.posts <= t.posts
    requires AllMove(c, NewPosts(s, m)) && AllMove(c, NewPosts(m, t))
    ensures AllMove(c, NewPosts(s, t))
  {
    hide MovesBreaker;
    assert NewPosts(s, t) == NewPosts(s, m) + NewPosts(m, t);
  }

  lemma {:induction false} RetryMoves(w: World, c: Config, s: Wire, batch: seq<Event>, attempt: nat)
    requires attempt <= c.retryAttempts + 1
    ensures var t := Retry(w, c, s, batch, attempt).0; s.posts <= t.posts && AllMove(c, NewPosts(s, t))
    decreases c.retryAttempts + 1 - attempt
  {
    hide Attempt;
    hide AllMove;
    if attempt <= c.retryAttempts {
      AttemptMoves(w, c, s, batch, attempt);
      var r := Attempt(w, c, s, batch, attempt);
      if r.Again? {
        RetryMoves(w, c, r.wire, batch, attempt + 1);
        MoveTwice(c, s, r.wire, Retry(w, c, r.wire, batch, attempt + 1).0);
      }
    } else {
      NothingMoves(c, s, s);
    }
  }

  lemma NothingMoves(c: Config, s: Wire, t: Wire)
    requires t.posts == s.posts
    ensures AllMove(c, NewPosts(s, t))
  {
    assert NewPosts(s, t) == [];
  }

  /** Over a whole split recursion, in every world, each answer moves the breaker as its status and body say. */
  lemma {:induction false} EachAnswerMovesTheBreaker(w: World, c: Config, s: Wire, items: seq<Event>)
    ensures var t := SendEvents(w, c, s, items).0; s.posts <= t.posts && AllMove(c, NewPosts(s, t))
    decreases |items|
  {
    hide Retry;
    hide AllMove;
    if items == [] {
      NothingMoves(c, s, s);
    } else {
      var s0 := s.(batches := s.batches + 1);
      RetryMoves(w, c, s0, items, 0);
      var (s1, verdict) := Retry(w, c, s0, items, 0);
      assert NewPosts(s, s1) == NewPosts(s0, s1);
      if verdict == TooLarge && |items| > 1 {
        var midpoint := |items| / 2;
        EachAnswerMovesTheBreaker(w, c, s1, items[..midpoint]);
        var m := SendEvents(w, c, s1, items[..midpoint]).0;
        EachAnswerMovesTheBreaker(w, c, m, items[midpoint..]);
        MoveTwice(c, s, s1, m);
        MoveTwice(c, s, m, SendEvents(w, c, m, items[midpoint..]).0);
      } else {
        assert SendEvents(w, c, s, items).0.posts == s1.posts by {
          assert verdict == TooLarge ==> SendEvents(w, c, s, items) == SplitOrDrop(w, c, s1, items);
        }
        assert NewPosts(s, SendEvents(w, c, s, items).0) == NewPosts(s, s1);
      }
    }
  }

  // ---------- both follow their histories ----------

  /** What an answer is to the breaker, by status and body. */
  predicate Reports(r: Response, e: CB.Occurrence) {
    if IsFailure(r) || IsBusy(r) then e.Failed?
    else if IsPermanentRejection(r) || IsTooLarge(r) then e == CB.PermanentlyRejected
    else e == CB.Succeeded
  }

  /** The POST's answer is the `n`th entry of the breaker's history, and the breaker went with it. */
  ghost predicate LoggedAt(c: Config, p: Post, log: seq<CB.Occurrence>, n: nat) {
    && n < |log|
    && Reports(p.response, log[n])
    && p.before == CB.Replay(c.threshold, c.recovery, log[..n])
    && p.breaker == CB.Replay(c.threshold, c.recovery, log[..n + 1])
  }

  ghost predicate AllLogged(c: Config, posts: seq<Post>, log: seq<CB.Occurrence>) {
    forall p | p in posts :: exists n: nat :: LoggedAt(c, p, log, n)
  }

  lemma LongerLog(c: Config, posts: seq<Post>, log: seq<CB.Occurrence>, longer: seq<CB.Occurrence>)
    requires AllLogged(c, posts, log) && log <= longer
    ensures AllLogged(c, posts, longer)
  {
    forall p | p in posts ensures exists n: nat :: LoggedAt(c, p, longer, n) {
      var n: nat :| LoggedAt(c, p, log, n);
      assert longer[..n] == log[..n] && longer[..n + 1] == log[..n + 1];
      assert LoggedAt(c, p, longer, n);
    }
  }

  function PostTimes(posts: seq<Post>): seq<real> {
    if posts == [] then [] else PostTimes(posts[..|posts| - 1]) + [posts[|posts| - 1].at]
  }

  lemma {:induction false} PostTimesAppend(a: seq<Post>, b: seq<Post>, from: real, to: real)
    ensures RateLimiting.CountIn(PostTimes(a + b), from, to)
         == RateLimiting.CountIn(PostTimes(a), from, to) + RateLimiting.CountIn(PostTimes(b), from, to)
  {
    if b == [] {
      assert a + b == a;
    } else {
      var all, n := a + b, |b| - 1;
      assert all[..|all| - 1] == a + b[..n] && all[|all| - 1] == b[n];
      PostTimesAppend(a, b[..n], from, to);
      CountSnoc(PostTimes(a + b[..n]), b[n].at, from, to);
      CountSnoc(PostTimes(b[..n]), b[n].at, from, to);
    }
  }

  lemma CountSnoc(times: seq<real>, t: real, from: real, to: real)
    ensures RateLimiting.CountIn(times + [t], from, to)
         == RateLimiting.CountIn(times, from, to) + if from <= t < to then 1 else 0
  {
    assert (times + [t])[..|times|] == times;
  }

  /** The admissions of the limiter's history that fall into the interval. */
  function Admitted(c: Config, asks: seq<real>, from: real, to: real): nat {
    RateLimiting.CountIn(RateLimiting.Admissions(c.maxCalls, c.window, asks), from, to)
  }

  lemma OneMoreAsk(c: Config, asks: seq<real>, now: real, from: real, to: real)
    ensures Admitted(c, asks + [now], from, to) == Admitted(c, asks, from, to)
      + if RateLimiting.AcquireAt(c.maxCalls, c.window, RateLimiting.CallsAfter(c.maxCalls, c.window, asks), now).1
           && from <= now < to then 1 else 0
    ensures RateLimiting.CallsAfter(c.maxCalls, c.window, asks + [now])
         == RateLimiting.AcquireAt(c.maxCalls, c.window, RateLimiting.CallsAfter(c.maxCalls, c.window, asks), now).0
  {
    assert (asks + [now])[..|asks|] == asks;
    CountSnoc(RateLimiting.Admissions(c.maxCalls, c.window, asks), now, from, to);
  }

  lemma {:induction false} MoreAsks(c: Config, asks: seq<real>, more: seq<real>, from: real, to: real)
    requires asks <= more
    ensures Admitted(c, asks, from, to) <= Admitted(c, more, from, to)
    decreases |more|
  {
    if |asks| < |more| {
      var n := |more| - 1;
      assert more == more[..n] + [more[n]];
      MoreAsks(c, asks, more[..n], from, to);
      OneMoreAsk(c, more[..n], more[n], from, to);
    } else {
      assert asks == more;
    }
  }

  /** Limiter and breaker are as their histories say, at this time. */
  ghost predicate Sound(c: Config, s: Wire) {
    Explained(c, s.shared) && Orderly(s.shared, s.now)
  }

  /** No POST, but time may have passed and others may have been at work. */
  ghost predicate Passed(c: Config, s: Wire, t: Wire) {
    Sound(c, t) && s.shared.log <= t.shared.log && s.shared.asks <= t.shared.asks && t.posts == s.posts && s.now <= t.now
  }

  /** From `s` to `t` every POST was logged at the breaker, and was started by an admission of the limiter. */
  ghost predicate Grown(c: Config, s: Wire, t: Wire, from: real, to: real) {
    && Sound(c, t)
    && s.shared.log <= t.shared.log && s.shared.asks <= t.shared.asks && s.posts <= t.posts
    && AllLogged(c, NewPosts(s, t), t.shared.log)
    && RateLimiting.CountIn(PostTimes(NewPosts(s, t)), from, to) + Admitted(c, s.shared.asks, from, to)
       <= Admitted(c, t.shared.asks, from, to)
  }

  lemma GrownTwice(c: Config, s: Wire, m: Wire, t: Wire, from: real, to: real)
    requires Grown(c, s, m, from, to) && Grown(c, m, t, from, to)
    ensures Grown(c, s, t, from, to)
  {
    hide Sound;
    hide LoggedAt;
    hide Admitted;
    assert NewPosts(s, t) == NewPosts(s, m) + NewPosts(m, t);
    LongerLog(c, NewPosts(s, m), m.shared.log, t.shared.log);
    PostTimesAppend(NewPosts(s, m), NewPosts(m, t), from, to);
  }

  lemma PassedIsGrown(c: Config, s: Wire, t: Wire, from: real, to: real)
    requires Passed(c, s, t)
    ensures Grown(c, s, t, from, to)
  {
    hide Sound;
    assert NewPosts(s, t) == [];
    MoreAsks(c, s.shared.asks, t.shared.asks, from, to);
  }

  lemma LaterIsOrderly(sh: Shared, now: real, later: real)
    requires Orderly(sh, now) && now <= later
    ensures Orderly(sh, later)
  {
    var before, after := sh.asks + [now], sh.asks + [later];
    forall i, j | 0 <= i <= j < |after| ensures after[i] <= after[j] {
      assert before[i] <= before[j];
    }
  }

  lemma AwaitPasses(w: World, c: Config, s: Wire, d: real)
    requires FairOthers(w, c) && Sound(c, s) && d >= 0.0
    ensures Passed(c, s, Await(w, s, d))
  {
    LaterIsOrderly(s.shared, s.now, s.now + d + w.latency(s.awaits));
  }

  lemma AcquirePasses(c: Config, s: Wire)
    requires Sound(c, s)
    ensures Passed(c, s, Acquired(c, s))
  {
    OneMoreAsk(c, s.shared.asks, s.now, 0.0, 0.0);
    RateLimiting.AppendKeepsOrder(s.shared.asks + [s.now], s.now);
  }

  lemma ReportPasses(c: Config, s: Wire, e: CB.Occurrence)
    requires Sound(c, s)
    ensures Passed(c, s, WithBreaker(s, CB.Step(s.shared.breaker, c.threshold, c.recovery, e), e))
  {
    assert (s.shared.log + [e])[..|s.shared.log|] == s.shared.log;
  }

  lemma PassedTwice(c: Config, s: Wire, m: Wire, t: Wire)
    requires Passed(c, s, m) && Passed(c, m, t)
    ensures Passed(c, s, t)
  {
  }

  lemma GiveupPasses(w: World, c: Config, s: Wire, attempt: nat, delay: real)
    requires FairOthers(w, c) && Sound(c, s) && delay >= 0.0
    ensures Passed(c, s, SleepOrRecordGiveup(w, c, s, attempt, delay))
  {
    hide Explained;
    hide Orderly;
    hide FairOthers;
    AwaitPasses(w, c, s.(slept := s.slept + delay), delay);
  }

  lemma BackOffPasses(w: World, c: Config, s: Wire, attempt: nat)
    requires FairOthers(w, c) && Sound(c, s) && c.backoffFactor >= 0.0
    ensures Passed(c, s, BackOff(w, c, s, attempt).wire)
  {
    hide Explained;
    hide Orderly;
    hide FairOthers;
    DelayIsNonNegative(c, attempt);
    if attempt < 1024 {
      GiveupPasses(w, c, s, attempt, Backoff.Delay(attempt, c.backoffFactor, 60.0));
    }
  }

  lemma EvaluatePasses(w: World, c: Config, s: Wire, attempt: nat, r: Response)
    requires FairOthers(w, c) && Sound(c, s) && c.backoffFactor >= 0.0
    ensures Passed(c, s, Evaluate(w, c, s, attempt, HandleResponse(r)).wire)
  {
    ReplyKinds(r);
    hide HandleResponse;
    hide FairOthers;
    hide Explained;
    hide Orderly;
    BackOffPasses(w, c, s, attempt);
    hide BackOff;
    if IsBusy(r) {
      GiveupPasses(w, c, s, attempt, AskedDelay(r.retryAfter));
    }
  }

  /** The POST: its answer is logged when it is in. */
  lemma CallIsLogged(w: World, c: Config, s: Wire, batch: seq<Event>)
    requires FairOthers(w, c) && Sound(c, s)
    ensures var t := Call(w, c, s, batch).0;
      && Sound(c, t)
      && s.shared.log <= t.shared.log && s.shared.asks <= t.shared.asks
      && s.posts <= t.posts && NewPosts(s, t) == [t.posts[|s.posts|]] && t.posts[|s.posts|].at == s.now
      && LoggedAt(c, t.posts[|s.posts|], t.shared.log, |t.shared.log| - 1)
  {
    var r := w.server(|s.posts|, batch);
    ReplyKinds(r);
    AwaitPasses(w, c, s, 0.0);
    hide FairOthers;
    hide HandleResponse;
    hide Orderly;
    hide Await;
    var s3 := Await(w, s, 0.0);
    ReportPasses(c, s3, Ending(HandleResponse(r), s3.now));
    var t := Call(w, c, s, batch).0;
    assert t.shared.log[..|s3.shared.log|] == s3.shared.log;
    assert t.shared.log[..|t.shared.log|] == t.shared.log;
  }

  lemma OnePostTime(p: Post, from: real, to: real)
    ensures RateLimiting.CountIn(PostTimes([p]), from, to) == if from <= p.at < to then 1 else 0
  {
    assert [p][..0] == [] && PostTimes([]) == [];
    CountSnoc([], p.at, from, to);
  }

  /** It was admitted by the ask before it. */
  lemma CallGrows(w: World, c: Config, s: Wire, batch: seq<Event>, from: real, to: real)
    requires FairOthers(w, c) && Sound(c, s) && Admits(c, s)
    ensures Grown(c, s, Call(w, c, Entered(c, Acquired(c, s)), batch).0, from, to)
  {
    var s1 := Acquired(c, s);
    var s2 := Entered(c, s1);
    AcquirePasses(c, s);
    ReportPasses(c, s1, CB.Asked(s.now));
    OneMoreAsk(c, s.shared.asks, s.now, from, to);
    CallIsLogged(w, c, s2, batch);
    hide FairOthers;
    hide Sound;
    hide LoggedAt;
    var t := Call(w, c, s2, batch).0;
    hide Call;
    MoreAsks(c, s2.shared.asks, t.shared.asks, from, to);
    hide Admitted;
    assert NewPosts(s, t) == NewPosts(s2, t);
    OnePostTime(t.posts[|s.posts|], from, to);
  }

  lemma SleepPasses(w: World, c: Config, s: Wire, d: real)
    requires FairOthers(w, c) && Sound(c, s) && d >= 0.0
    ensures Passed(c, s, Sleep(w, s, d))
  {
    hide FairOthers;
    hide Explained;
    hide Orderly;
    AwaitPasses(w, c, s.(slept := s.slept + d), d);
  }

  lemma WaitGrows(w: World, c: Config, s: Wire, from: real, to: real)
    requires FairOthers(w, c) && Sound(c, s)
    ensures var s1 := Acquired(c, s);
      Grown(c, s, Sleep(w, s1, RateLimiting.RetryAfter(c.window, s1.shared.calls, s.now)), from, to)
  {
    hide FairOthers;
    hide Sound;
    hide Grown;
    hide Sleep;
    var s1 := Acquired(c, s);
    var wait := RateLimiting.RetryAfter(c.window, s1.shared.calls, s.now);
    AcquirePasses(c, s);
    hide Acquired;
    SleepPasses(w, c, s1, wait);
    PassedTwice(c, s, s1, Sleep(w, s1, wait));
    PassedIsGrown(c, s, Sleep(w, s1, wait), from, to);
  }

  lemma AttemptGrows(w: World, c: Config, s: Wire, batch: seq<Event>, attempt: nat, from: real, to: real)
    requires FairOthers(w, c) && Sound(c, s) && c.backoffFactor >= 0.0
    ensures Grown(c, s, Attempt(w, c, s, batch, attempt).wire, from, to)
  {
    AttemptCases(w, c, s, batch, attempt);
    hide Attempt;
    hide HandleResponse;
    hide Explained;
    hide Orderly;
    hide FairOthers;
    hide Grown;
    var s1 := Acquired(c, s);
    var s2 := Entered(c, s1);
    AcquirePasses(c, s);
    ReportPasses(c, s1, CB.Asked(s.now));
    PassedTwice(c, s, s1, s2);
    if !Admits(c, s) {
      WaitGrows(w, c, s, from, to);
    } else if !LetsStart(c, s1) {
      var s3 := s2.(refusals := s2.refusals + 1);
      BackOffPasses(w, c, s3, attempt);
      hide BackOff;
      PassedTwice(c, s, s2, BackOff(w, c, s3, attempt).wire);
      PassedIsGrown(c, s, BackOff(w, c, s3, attempt).wire, from, to);
    } else {
      CallGrows(w, c, s, batch, from, to);
      var s3 := Call(w, c, s2, batch).0;
      var r := w.server(|s2.posts|, batch);
      GrownIsSound(c, s, s3, from, to);
      EvaluatePasses(w, c, s3, attempt, r);
      hide Evaluate;
      PassedIsGrown(c, s3, Evaluate(w, c, s3, attempt, HandleResponse(r)).wire, from, to);
      GrownTwice(c, s, s3, Evaluate(w, c, s3, attempt, HandleResponse(r)).wire, from, to);
    }
  }

  lemma {:induction false} RetryGrows(w: World, c: Config, s: Wire, batch: seq<Event>, attempt: nat, from: real, to: real)
    requires FairOthers(w, c) && Sound(c, s) && c.backoffFactor >= 0.0 && attempt <= c.retryAttempts + 1
    ensures Grown(c, s, Retry(w, c, s, batch, attempt).0, from, to)
    decreases c.retryAttempts + 1 - attempt
  {
    hide Attempt;
    hide Sound;
    if attempt <= c.retryAttempts {
      AttemptGrows(w, c, s, batch, attempt, from, to);
      var r := Attempt(w, c, s, batch, attempt);
      if r.Again? {
        RetryGrows(w, c, r.wire, batch, attempt + 1, from, to);
        GrownTwice(c, s, r.wire, Retry(w, c, r.wire, batch, attempt + 1).0, from, to);
      }
    } else {
      StaysGrown(c, s, s, from, to);
    }
  }

  /** Counters and leaves are not part of the histories. */
  lemma StaysGrown(c: Config, s: Wire, t: Wire, from: real, to: real)
    requires Sound(c, s) && t.shared == s.shared && t.posts == s.posts && t.now == s.now
    ensures Grown(c, s, t, from, to)
  {
    PassedIsGrown(c, s, t, from, to);
  }

  lemma {:induction false} SendGrows(w: World, c: Config, s: Wire, items: seq<Event>, from: real, to: real)
    requires FairOthers(w, c) && Sound(c, s) && c.backoffFactor >= 0.0
    ensures Grown(c, s, SendEvents(w, c, s, items).0, from, to)
    decreases |items|
  {
    hide Retry;
    hide Grown;
    if items == [] {
      StaysGrown(c, s, s, from, to);
    } else {
      var s0 := s.(batches := s.batches + 1);
      StaysGrown(c, s, s0, from, to);
      RetryGrows(w, c, s0, items, 0, from, to);
      var (s1, verdict) := Retry(w, c, s0, items, 0);
      GrownTwice(c, s, s0, s1, from, to);
      GrownIsSound(c, s, s1, from, to);
      if verdict == TooLarge && |items| > 1 {
        var midpoint := |items| / 2;
        SendGrows(w, c, s1, items[..midpoint], from, to);
        var m := SendEvents(w, c, s1, items[..midpoint]).0;
        GrownIsSound(c, s1, m, from, to);
        SendGrows(w, c, m, items[midpoint..], from, to);
        GrownTwice(c, s, s1, m, from, to);
        GrownTwice(c, s, m, SendEvents(w, c, m, items[midpoint..]).0, from, to);
      } else {
        var t := SendEvents(w, c, s, items).0;
        assert t.posts == s1.posts && t.shared == s1.shared && t.now == s1.now by {
          assert verdict == TooLarge ==> SendEvents(w, c, s, items) == SplitOrDrop(w, c, s1, items);
        }
        StaysGrown(c, s1, t, from, to);
        GrownTwice(c, s, s1, t, from, to);
      }
    }
  }

  lemma GrownIsSound(c: Config, s: Wire, t: Wire, from: real, to: real)
    requires Grown(c, s, t, from, to)
    ensures Sound(c, t)
  {
  }

  /**
   The breaker law inside a send: whatever the server answers and however other tasks' calls come in between, the
   breaker is what its history makes it, and each POST is an entry of that history which reports its answer.
   */
  lemma BreakerFollowsItsHistory(w: World, c: Config, s: Wire, items: seq<Event>)
    requires FairOthers(w, c) && Sound(c, s) && c.backoffFactor >= 0.0 && c.threshold > 0
    ensures var t := SendEvents(w, c, s, items).0;
      var b := t.shared.breaker;
      && s.posts <= t.posts && s.shared.log <= t.shared.log
      && AllLogged(c, NewPosts(s, t), t.shared.log)
      && b.failureCount == CB.FailuresSinceSuccess(t.shared.log)
      && b.lastFailureTime == CB.LatestFailure(t.shared.log)
      && (b.mode == CB.Closed <==> CB.FailuresSinceSuccess(t.shared.log) < c.threshold)
      && (b.mode == CB.HalfOpen <==> CB.ProbeOutstanding(c.threshold, c.recovery, t.shared.log))
  {
    hide SendEvents;
    SendGrows(w, c, s, items, 0.0, 0.0);
    CB.BreakerRefinesHistory(c.threshold, c.recovery, SendEvents(w, c, s, items).0.shared.log);
  }

  /**
   The limiter law inside a send: of the POSTs of one send at most `max_calls` start in any half-open interval of one
   window, however often batches are split and retried.
   */
  lemma {:induction false} WindowHoldsForPosts(w: World, c: Config, s: Wire, items: seq<Event>, from: real)
    requires FairOthers(w, c) && Sound(c, s) && c.backoffFactor >= 0.0
    ensures var t := SendEvents(w, c, s, items).0;
      s.posts <= t.posts && RateLimiting.CountIn(PostTimes(NewPosts(s, t)), from, from + c.window) <= c.maxCalls
  {
    hide SendEvents;
    hide Explained;
    hide AllLogged;
    hide PostTimes;
    hide RateLimiting.CountIn;
    hide RateLimiting.Admissions;
    SendGrows(w, c, s, items, from, from + c.window);
    var t := SendEvents(w, c, s, items).0;
    RateLimiting.PrefixOrder(t.shared.asks, t.now);
    RateLimiting.SlidingWindowBound(c.maxCalls, c.window, t.shared.asks, from);
  }

  /**
   When an attempt is a POST, read off the histories: fewer than `max_calls` admissions lie in the window, and the
   breaker's failures are below the threshold, or a probe is out, or the recovery timeout is over.
   */
  lemma PostsExactlyWhen(w: World, c: Config, s: Wire, batch: seq<Event>, attempt: nat)
    requires Sound(c, s) && c.threshold > 0
    ensures |Attempt(w, c, s, batch, attempt).wire.posts| == |s.posts| + 1 <==>
      && |RateLimiting.Recent(RateLimiting.Admissions(c.maxCalls, c.window, s.shared.asks), s.now, c.window)| < c.maxCalls
      && (|| CB.FailuresSinceSuccess(s.shared.log) < c.threshold
          || CB.ProbeOutstanding(c.threshold, c.recovery, s.shared.log)
          || CB.TimedOut(CB.LatestFailure(s.shared.log), c.recovery, s.now))
  {
    AttemptCases(w, c, s, batch, attempt);
    hide Attempt;
    hide HandleResponse;
    RateLimiting.ForgettingIsHarmless(c.maxCalls, c.window, s.shared.asks, s.now);
    CB.StartsExactlyWhen(c.threshold, c.recovery, s.shared.log, s.now);
    var s2 := Entered(c, Acquired(c, s));
    var (s3, handled) := Call(w, c, s2, batch);
    EvaluateFacts(w, c, s3, batch, attempt, handled);
    hide Evaluate;
  }

  /** A new transport's limiter and breaker are as their empty histories say. */
  lemma FreshIsSound(c: Config, s: Wire)
    requires s.shared == Shared([], CB.FRESH, [], [])
    ensures Sound(c, s)
  {
  }
}
