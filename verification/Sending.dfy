/** Sending a batch: what a reply means, the retry loop, and the recursive split on a payload that is too large. */
module Sending {
  import opened Common
  import opened BoundedQueue
  import Handshake
  import RateLimiting
  import CircuitBreaking
  import Backoff

  // ---------- replies ----------

  datatype Header = Absent | Garbage | Seconds(value: real)

  datatype Body = Unparseable | NotADict | EmptyDict | Dict(successIsFalse: bool, hasErrors: bool)

  /**
   `NoReply` stands for every exception of the HTTP client; `Unserializable` for a batch that cannot be written as
   JSON, which the client reports as a falsy answer without asking the server.
   */
  datatype Response = Reply(status: nat, body: Body, retryAfter: Header) | NoReply | Unserializable

  datatype Error = RateLimited(seconds: real) | PayloadTooLarge | PermanentClientError(status: nat) | OtherError

  /** What `_handle_response` returns or raises; `Falsy` covers False and the empty dict. */
  datatype Handled = Truthy | Falsy | Reported(successIsFalse: bool, hasErrors: bool) | Failed(error: Error)

  /** Seconds to wait after a 429: a number is clamped at zero, anything else means the default of 60. */
  function ParseRetryAfterSeconds(header: Header): Duration {
    match header
    case Seconds(value) => if value < 0.0 then 0.0 else value
    case _ => 60.0
  }

  function Handle200(body: Body): Handled {
    match body
    case Unparseable => Falsy
    case NotADict => Truthy
    case EmptyDict => Falsy
    case Dict(successIsFalse, hasErrors) => Reported(successIsFalse, hasErrors)
  }

  function HandleResponse(r: Response): Handled {
    match r
    case NoReply => Failed(OtherError)
    case Unserializable => Falsy
    case Reply(status, body, retryAfter) =>
      if status == 200 then Handle200(body)
      else if status == 201 then Truthy
      else if status == 429 then Failed(RateLimited(ParseRetryAfterSeconds(retryAfter)))
      else if status == 401 || status == 403 then Failed(OtherError)
      else if status == 413 then Failed(PayloadTooLarge)
      else if status == 400 || status == 404 || status == 422 then Failed(PermanentClientError(status))
      else if status >= 500 then Failed(OtherError)
      else Falsy
  }

  predicate Accepts(h: Handled) {
    h == Truthy || h == Reported(false, false)
  }

  /** A permanent client error passes the breaker by; every other exception is counted. */
  predicate CountsAsFailure(h: Handled) {
    h.Failed? && !h.error.PayloadTooLarge? && !h.error.PermanentClientError?
  }

  // ---------- what a reply means, by its status and body alone ----------

  /** 201, or 200 with a body that reports no failure. */
  predicate IsAcceptance(r: Response) {
    r.Reply? && (r.status == 201 || (r.status == 200 && (r.body == NotADict || r.body == Dict(false, false))))
  }

  /** 200 with a body that says `success: false` or lists errors. */
  predicate IsPartialFailure(r: Response) {
    r.Reply? && r.status == 200 && r.body.Dict? && r.body != Dict(false, false)
  }

  predicate IsTooLarge(r: Response) {
    r.Reply? && r.status == 413
  }

  predicate IsPermanentRejection(r: Response) {
    r.Reply? && (r.status == 400 || r.status == 404 || r.status == 422)
  }

  predicate IsBusy(r: Response) {
    r.Reply? && r.status == 429
  }

  /** No reply, failed authentication, or a server error. */
  predicate IsFailure(r: Response) {
    r.NoReply? || (r.Reply? && (r.status == 401 || r.status == 403 || r.status >= 500))
  }

  /** Nothing the sender can make sense of: an unreadable or empty 200, or a status it has no rule for. */
  predicate IsUseless(r: Response) {
    || r.Unserializable?
    || (r.Reply? && r.status == 200 && (r.body == Unparseable || r.body == EmptyDict))
    || (r.Reply? && r.status < 500 && r.status !in {200, 201, 400, 401, 403, 404, 413, 422, 429})
  }

  /** Final for the batch as it is. */
  predicate IsConclusive(r: Response) {
    IsAcceptance(r) || IsPartialFailure(r) || IsTooLarge(r) || IsPermanentRejection(r)
  }

  /** How long a 429 with this header asks to wait: at most 300 seconds, and 60 without a number. */
  function AskedDelay(header: Header): real {
    if !header.Seconds? then 60.0
    else if header.value < 0.0 then 0.0
    else if header.value > 300.0 then 300.0
    else header.value
  }

  /** The sender's dispatch gives each reply exactly its meaning. */
  lemma ReplyKinds(r: Response)
    ensures var h := HandleResponse(r);
      && (Accepts(h) <==> IsAcceptance(r))
      && (h.Reported? && !Accepts(h) <==> IsPartialFailure(r))
      && (h == Failed(PayloadTooLarge) <==> IsTooLarge(r))
      && (h.Failed? && h.error.PermanentClientError? <==> IsPermanentRejection(r))
      && (h.Failed? && h.error.RateLimited? <==> IsBusy(r))
      && (IsBusy(r) ==> h.error.seconds >= 0.0 && RMin(h.error.seconds, 300.0) == AskedDelay(r.retryAfter))
      && (h == Failed(OtherError) <==> IsFailure(r))
      && (h == Falsy <==> IsUseless(r))
      && (CountsAsFailure(h) <==> IsFailure(r) || IsBusy(r))
  {
  }

  // ---------- the sender's surroundings ----------

  datatype Config = Config(retryAttempts: nat, backoffFactor: real, maxCalls: nat, window: real, threshold: nat, recovery: real)

  const MAX_RETRY_AFTER := 300.0
  const MAX_BACKOFF := 60.0

  /**
   The part of the transport's state that other tasks change too, with its history: when the limiter was asked, and
   what has happened at the breaker.
   */
  datatype Shared = Shared(
    calls: seq<real>,
    breaker: CircuitBreaking.Breaker,
    // history
    asks: seq<real>,
    log: seq<CircuitBreaking.Occurrence>)

  /**
   Everything the sender does not decide: the outcome of the n-th POST, how long each await takes beyond the
   sleep asked for, and what other tasks do to limiter and breaker meanwhile. All three are arbitrary.
   */
  datatype World = World(
    server: (nat, seq<Event>) -> Response,
    latency: nat -> Duration,
    others: (nat, real, Shared) -> Shared)

  /** A POST made, when it was, and the breaker just before and after its outcome. */
  datatype Post = Post(
    batch: seq<Event>,
    response: Response,
    at: real,
    before: CircuitBreaking.Breaker,
    breaker: CircuitBreaking.Breaker)

  datatype Wire = Wire(
    now: real,
    shared: Shared,
    requestsSent: nat,
    requestsFailed: nat,
    // history
    awaits: nat,
    slept: real,
    posts: seq<Post>,
    refusals: nat,
    batches: nat,
    leaves: seq<Handshake.Leaf>)

  /** Time passes and other tasks run. */
  function Await(w: World, s: Wire, d: real): Wire {
    var now := s.now + d + w.latency(s.awaits);
    s.(now := now, shared := w.others(s.awaits, now, s.shared), awaits := s.awaits + 1)
  }

  function Sleep(w: World, s: Wire, d: real): Wire {
    Await(w, s.(slept := s.slept + d), d)
  }

  // ---------- one attempt ----------

  datatype Verdict = Accepted | NotAccepted | TooLarge | Permanent | Overflow

  datatype Step = Again(wire: Wire) | Stop(wire: Wire, verdict: Verdict)

  /** The limiter lets a call through now. */
  predicate Admits(c: Config, s: Wire) {
    RateLimiting.AcquireAt(c.maxCalls, c.window, s.shared.calls, s.now).1
  }

  /** After asking the limiter. */
  function Acquired(c: Config, s: Wire): Wire {
    s.(shared := s.shared.(
      calls := RateLimiting.AcquireAt(c.maxCalls, c.window, s.shared.calls, s.now).0,
      asks := s.shared.asks + [s.now]))
  }

  /** The breaker lets the next call start. */
  predicate LetsStart(c: Config, s: Wire) {
    CircuitBreaking.Enter(s.shared.breaker, c.recovery, s.now).1
  }

  function WithBreaker(s: Wire, b: CircuitBreaking.Breaker, e: CircuitBreaking.Occurrence): Wire {
    s.(shared := s.shared.(breaker := b, log := s.shared.log + [e]))
  }

  /** After asking the breaker. */
  function Entered(c: Config, s: Wire): Wire {
    WithBreaker(s, CircuitBreaking.Enter(s.shared.breaker, c.recovery, s.now).0, CircuitBreaking.Asked(s.now))
  }

  /** What the end of a POST is to the breaker. */
  function Ending(h: Handled, now: real): CircuitBreaking.Occurrence {
    if CountsAsFailure(h) then CircuitBreaking.Occurrence.Failed(now)
    else if h.Failed? then CircuitBreaking.PermanentlyRejected
    else CircuitBreaking.Succeeded
  }

  /** The POST inside the circuit breaker: the response, and the breaker's reaction to it. */
  function Call(w: World, c: Config, s: Wire, batch: seq<Event>): (Wire, Handled) {
    var response := w.server(|s.posts|, batch);
    var handled := HandleResponse(response);
    var s1 := Await(w, s, 0.0);
    var b := s1.shared.breaker;
    var after :=
      if CountsAsFailure(handled) then CircuitBreaking.OnFailure(b, c.threshold, s1.now)
      else if handled.Failed? then b
      else CircuitBreaking.OnSuccess(b);
    (WithBreaker(s1, after, Ending(handled, s1.now)).(posts := s.posts + [Post(batch, response, s.now, b, after)]), handled)
  }

  function SleepOrRecordGiveup(w: World, c: Config, s: Wire, attempt: nat, delay: real): Wire {
    if attempt < c.retryAttempts then Sleep(w, s, delay) else s.(requestsFailed := s.requestsFailed + 1)
  }

  /** Any exception but a 429 or a permanent one: back off, unless computing the delay overflows. */
  function BackOff(w: World, c: Config, s: Wire, attempt: nat): Step {
    match Backoff.CalculateBackoffDelay(attempt, c.backoffFactor, MAX_BACKOFF)
    case None => Stop(s, Overflow)
    case Some(delay) => Again(SleepOrRecordGiveup(w, c, s, attempt, delay))
  }

  function Evaluate(w: World, c: Config, s: Wire, attempt: nat, handled: Handled): Step {
    match handled
    case Truthy => Stop(s.(requestsSent := s.requestsSent + 1), Accepted)
    case Falsy => Again(s.(requestsFailed := s.requestsFailed + 1))
    case Reported(successIsFalse, hasErrors) =>
      if successIsFalse || hasErrors then Stop(s.(requestsFailed := s.requestsFailed + 1), NotAccepted)
      else Stop(s.(requestsSent := s.requestsSent + 1), Accepted)
    case Failed(RateLimited(seconds)) =>
      Again(SleepOrRecordGiveup(w, c, s, attempt, RMin(seconds, MAX_RETRY_AFTER)))
    case Failed(PayloadTooLarge) => Stop(s, TooLarge)
    case Failed(PermanentClientError(_)) => Stop(s, Permanent)
    case Failed(OtherError) => BackOff(w, c, s, attempt)
  }

  function Attempt(w: World, c: Config, s: Wire, batch: seq<Event>, attempt: nat): Step {
    var s1 := Acquired(c, s);
    if !Admits(c, s) then Again(Sleep(w, s1, RateLimiting.RetryAfter(c.window, s1.shared.calls, s.now)))
    else
      var s2 := Entered(c, s1);
      if !LetsStart(c, s1) then BackOff(w, c, s2.(refusals := s2.refusals + 1), attempt)
      else
        var (s3, handled) := Call(w, c, s2, batch);
        Evaluate(w, c, s3, attempt, handled)
  }

  /** The attempts from number `attempt` on. */
  function Retry(w: World, c: Config, s: Wire, batch: seq<Event>, attempt: nat): (Wire, Verdict)
    requires attempt <= c.retryAttempts + 1
    decreases c.retryAttempts + 1 - attempt
  {
    if attempt == c.retryAttempts + 1 then (s, NotAccepted)
    else
      match Attempt(w, c, s, batch, attempt)
      case Again(s') => Retry(w, c, s', batch, attempt + 1)
      case Stop(s', verdict) => (s', verdict)
  }

  // ---------- a whole batch ----------

  function Finish(s: Wire, items: seq<Event>, fate: Handshake.Fate): Wire {
    s.(leaves := s.leaves + [Handshake.Leaf(items, fate)])
  }

  function FailOne(s: Wire): Wire {
    s.(requestsFailed := s.requestsFailed + 1)
  }

  function SendEvents(w: World, c: Config, s: Wire, items: seq<Event>): (Wire, bool)
    decreases |items|, 1
  {
    if items == [] then (s, true)
    else
      var (s1, verdict) := Retry(w, c, s.(batches := s.batches + 1), items, 0);
      match verdict
      case Accepted => (Finish(s1, items, Handshake.Acknowledged), true)
      case NotAccepted => (Finish(s1, items, Handshake.Deferred), false)
      case TooLarge => SplitOrDrop(w, c, s1, items)
      case Permanent => (Finish(FailOne(s1), items, Handshake.Rejected), true)
      case Overflow => (Finish(FailOne(s1), items, Handshake.Deferred), false)
  }

  /** Both halves are sent, whatever becomes of the first; a single item that is too large is dropped. */
  function SplitOrDrop(w: World, c: Config, s: Wire, items: seq<Event>): (Wire, bool)
    requires items != []
    decreases |items|, 0
  {
    if |items| <= 1 then (Finish(FailOne(s), items, Handshake.Rejected), true)
    else
      var midpoint := |items| / 2;
      var (s1, left) := SendEvents(w, c, s, items[..midpoint]);
      var (s2, right) := SendEvents(w, c, s1, items[midpoint..]);
      (s2, left && right)
  }
}
