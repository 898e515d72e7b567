/** The client's flush: drain, send, then confirm or put back. */
module Client {
  import opened Common
  import opened BoundedQueue
  import opened EventBuffering
  import opened Transport
  import opened FlushGate
  import Backoff
  import Sending

  /** How the transport call ends: with its verdict, or with an exception. */
  datatype SendOutcome = Returned(ok: bool) | Raised

  // ---------- what a flush does to queue, store and counters ----------

  datatype Books = Books(q: Queue, records: map<string, string>, sent: nat, failed: nat, gate: Gate)

  /** The gate and the drain: the new books and the batch, empty when there is nothing to send. */
  function Begin(b: Books, now: real): (Books, seq<Entry>) {
    if IsOpen(b.gate, now) then (b.(q := Drain(b.q)), b.q.entries) else (b, [])
  }

  function Accept(b: Books, batch: seq<Entry>, failing: set<string>): Books {
    b.(records := Deleted(b.records, Keys(batch), failing), sent := b.sent + |batch|, gate := FlushGate.FRESH)
  }

  function PutBack(b: Books, batch: seq<Entry>, flushInterval: real, now: real, failing: set<string>): Books {
    b.(q := Requeue(b.q, batch),
       records := Deleted(b.records, Reversed(RealKeys(Discarded(b.q, batch))), failing),
       failed := b.failed + |batch|,
       gate := AfterFailure(b.gate, flushInterval, now))
  }

  /** A False and an exception come to the same. */
  function Finish(b: Books, batch: seq<Entry>, outcome: SendOutcome, flushInterval: real, now: real, failing: set<string>): Books {
    if outcome == Returned(true) then Accept(b, batch, failing) else PutBack(b, batch, flushInterval, now, failing)
  }

  /** One round of an add by another coroutine. */
  function Arrive(b: Books, policy: Policy, a: Arrival): (r: Books)
    requires b.q.maxlen > 0
    ensures r.q.maxlen == b.q.maxlen && r.gate == b.gate
  {
    b.(q := QueueAfterAdd(b.q, policy, a), records := StoreAfterAdd(b.q, policy, b.records, a))
  }

  function ArriveAll(b: Books, policy: Policy, attached: bool, arrivals: seq<Arrival>): (r: Books)
    requires b.q.maxlen > 0
    ensures r.q.maxlen == b.q.maxlen && r.gate == b.gate
    decreases |arrivals|
  {
    if arrivals == [] then b
    else ArriveAll(Arrive(b, policy, Reaching(attached, arrivals[0])), policy, attached, arrivals[1..])
  }

  /** How a buffer and a client are set up. */
  datatype Setup = Setup(policy: Policy, attached: bool, flushInterval: real)

  /** A flush as it was called and as it went: what arrived before it and during its send, and how and when that ended. */
  datatype FlushCall = FlushCall(
    before: seq<Arrival>, start: real, arrivals: seq<Arrival>, outcome: SendOutcome, finish: real, failing: set<string>)

  function Whole(u: Setup, b: Books, call: FlushCall): (r: Books)
    requires b.q.maxlen > 0
    ensures r.q.maxlen == b.q.maxlen
  {
    var (b1, batch) := Begin(b, call.start);
    if batch == [] then b
    else
      Finish(ArriveAll(b1, u.policy, u.attached, call.arrivals), batch, call.outcome, u.flushInterval, call.finish, call.failing)
  }

  /** Each arriving event is a new object: its address is that of no queued event and of none in the batch. */
  predicate FreshArrivals(b: Books, batch: seq<Event>, policy: Policy, attached: bool, arrivals: seq<Arrival>)
    requires b.q.maxlen > 0
    decreases |arrivals|
  {
    arrivals != [] ==>
      var a := arrivals[0];
      && a.key != "" && FreshId(a.event.id, batch) && FreshId(a.event.id, Events(b.q.entries))
      && FreshArrivals(Arrive(b, policy, Reaching(attached, a)), batch, policy, attached, arrivals[1..])
  }

  class GuardAgentHandler {
    const buffer: EventBuffer
    const transport: HTTPTransport
    const flushInterval: real
    var eventsSent: nat
    var eventsFailed: nat
    var eventsFailureStreak: nat
    var eventsRetryAfter: real

    ghost predicate Valid()
      reads this, buffer, transport, transport.rateLimiter, transport.circuitBreaker
    {
      buffer.Valid() && transport.Valid()
    }

    ghost function GateView(): Gate
      reads this
    {
      Gate(eventsFailureStreak, eventsRetryAfter)
    }

    ghost function View(): Books
      reads this, buffer, buffer.redis
    {
      Books(buffer.View(), buffer.Records(), eventsSent, eventsFailed, GateView())
    }

    constructor (buffer: EventBuffer, transport: HTTPTransport, flushInterval: real)
      requires buffer.Valid() && transport.Valid()
      ensures Valid() && this.buffer == buffer && this.transport == transport && this.flushInterval == flushInterval
      ensures View() == Books(buffer.View(), buffer.Records(), 0, 0, FlushGate.FRESH)
    {
      this.buffer := buffer;
      this.transport := transport;
      this.flushInterval := flushInterval;
      eventsSent, eventsFailed, eventsFailureStreak, eventsRetryAfter := 0, 0, 0, 0.0;
    }

    /** The gate and the drain: while the gate is closed nothing is drained. */
    method BeginFlush(now: real) returns (events: seq<Event>, keys: seq<string>)
      requires Valid()
      modifies buffer
      ensures Valid() && buffer.redis == old(buffer.redis)
      ensures |events| == |keys| && (View(), Zip(events, keys)) == Begin(old(View()), now)
      ensures DistinctIds(events)
      ensures now < eventsRetryAfter ==> events == [] && View() == old(View())
      ensures now >= eventsRetryAfter ==> events == old(buffer.eventBuffer) && buffer.eventBuffer == []
    {
      if now < eventsRetryAfter {
        return [], [];
      }
      events, keys := buffer.FlushEventsWithKeys(now);
      assert |buffer.View().entries| == 0;
    }

    /** Puts the batch back and deletes the records of what that pushed out. */
    method RequeueAndConfirmEvents(events: seq<Event>, keys: seq<string>, failing: set<string>)
      requires Valid() && |events| == |keys| && DistinctIds(events + buffer.eventBuffer)
      modifies buffer, buffer.redis
      ensures Valid() && buffer.redis == old(buffer.redis)
      ensures buffer.View() == Requeue(old(buffer.View()), Zip(events, keys))
      ensures buffer.Records() ==
        Deleted(old(buffer.Records()), Reversed(RealKeys(Discarded(old(buffer.View()), Zip(events, keys)))), failing)
    {
      ghost var cut := Reversed(RealKeys(Discarded(buffer.View(), Zip(events, keys))));
      var evictedKeys := buffer.RequeueEventsInMemory(events, keys);
      ReversedTwice(evictedKeys);
      NothingDeleted(cut, failing);
      if evictedKeys != [] {
        buffer.ConfirmEventRedisKeys(evictedKeys, failing);
      }
    }

    /**
     The rest of a flush once the transport has answered. On success the records go and the streak ends. On False or an
     exception alike the batch goes back with its keys, the batch counts as failed, and the gate closes.
     */
    method FinishFlush(events: seq<Event>, keys: seq<string>, outcome: SendOutcome, now: real, failing: set<string>)
      returns (overflow: bool)
      requires Valid() && |events| == |keys| && DistinctIds(events + buffer.eventBuffer)
      modifies this, buffer, buffer.redis
      ensures Valid() && buffer.redis == old(buffer.redis)
      ensures View() == Finish(old(View()), Zip(events, keys), outcome, flushInterval, now, failing)
      ensures overflow == (outcome != Returned(true) && old(eventsFailureStreak) >= 1024)
      ensures outcome == Returned(true) ==> eventsFailureStreak == 0 && eventsRetryAfter == 0.0
      ensures outcome != Returned(true) ==>
        && eventsFailureStreak == old(eventsFailureStreak) + 1
        && eventsRetryAfter ==
          if overflow then old(eventsRetryAfter) else now + Backoff.Delay(old(eventsFailureStreak), flushInterval, 300.0)
    {
      hide Deleted;
      hide Requeue;
      hide Discarded;
      hide RealKeys;
      hide Reversed;
      hide Backoff.Delay;
      if outcome == Returned(true) {
        ZipParts(events, keys);
        NothingDeleted(keys, failing);
        buffer.ConfirmEventRedisKeys(keys, failing);
        eventsSent := eventsSent + |events|;
        eventsFailureStreak := 0;
        eventsRetryAfter := 0.0;
        return false;
      }
      RequeueAndConfirmEvents(events, keys, failing);
      eventsFailed := eventsFailed + |events|;
      eventsFailureStreak := eventsFailureStreak + 1;
      var delay := Backoff.CalculateBackoffDelay(eventsFailureStreak - 1, flushInterval, FlushGate.MAX_BACKOFF);
      if delay.None? {
        return true;
      }
      eventsRetryAfter := now + delay.value;
      return false;
    }

    /** While the send is under way other coroutines add events. */
    method AddMeanwhile(arrivals: seq<Arrival>, ghost batch: seq<Event>)
      requires Valid() && DistinctIds(batch + buffer.eventBuffer)
      requires FreshArrivals(View(), batch, buffer.policy, buffer.redis != null, arrivals)
      modifies buffer, buffer.redis
      ensures Valid() && buffer.redis == old(buffer.redis) && DistinctIds(batch + buffer.eventBuffer)
      ensures View() == ArriveAll(old(View()), buffer.policy, buffer.redis != null, arrivals)
    {
      hide QueueAfterAdd;
      hide StoreAfterAdd;
      hide DistinctIds;
      for i := 0 to |arrivals|
        invariant Valid() && buffer.redis == old(buffer.redis) && DistinctIds(batch + buffer.eventBuffer)
        invariant FreshArrivals(View(), batch, buffer.policy, buffer.redis != null, arrivals[i..])
        invariant ArriveAll(View(), buffer.policy, buffer.redis != null, arrivals[i..])
               == ArriveAll(old(View()), buffer.policy, buffer.redis != null, arrivals)
      {
        EntriesEvents(buffer.eventBuffer, buffer.eventRedisKeys);
        ghost var before := buffer.eventBuffer;
        var _ := buffer.AddRound(arrivals[i]);
        assert DistinctIds(buffer.eventBuffer);
        StillDistinct(batch, before, buffer.eventBuffer, arrivals[i].event);
        assert arrivals[i..][1..] == arrivals[i + 1..];
      }
    }

    /**
     A whole flush. Behind a closed gate, or with nothing queued, nothing happens. Otherwise the batch is sent while
     other coroutines add events, and settled: a batch the sender takes is gone, any other goes back in front of what
     has arrived. `interruption` is the state in which an exception that is no `Exception` leaves the transport.
     */
    method FlushEvents(arrivals: seq<Arrival>, interruption: Option<Sending.Wire>, failing: set<string>)
      returns (overflow: bool)
      requires Valid()
      requires FreshArrivals(Begin(View(), transport.now).0, buffer.eventBuffer, buffer.policy, buffer.redis != null, arrivals)
      modifies this, buffer, buffer.redis, transport, transport.rateLimiter, transport.circuitBreaker
      ensures Valid() && buffer.redis == old(buffer.redis)
      ensures
        var (b, batch) := Begin(old(View()), old(transport.now));
        if batch == [] then
          !overflow && View() == old(View()) && transport.View() == old(transport.View())
        else
          var (wire, ok) := Sending.SendEvents(transport.world, transport.config, old(transport.View()), Events(batch));
          && transport.View() == (if interruption.Some? then interruption.value else wire)
          && var outcome := if interruption.Some? then Raised else Returned(ok);
          && View() == Whole(Setup(buffer.policy, buffer.redis != null, flushInterval), old(View()),
                             FlushCall([], old(transport.now), arrivals, outcome, transport.now, failing))
          && overflow == (outcome != Returned(true) && old(eventsFailureStreak) >= 1024)
      ensures old(transport.now) < old(eventsRetryAfter) ==>
        !overflow && View() == old(View()) && transport.View() == old(transport.View())
    {
      hide Sending.SendEvents;
      hide Finish;
      var events, keys := BeginFlush(transport.now);
      if events == [] {
        return false;
      }
      ZipParts(events, keys);
      assert events + buffer.eventBuffer == events;
      AddMeanwhile(arrivals, events);
      var outcome := Raised;
      if interruption.Some? {
        transport.BeInterrupted(interruption.value);
      } else {
        var ok := transport.SendEvents(events);
        outcome := Returned(ok);
      }
      overflow := FinishFlush(events, keys, outcome, transport.now, failing);
    }
  }

  lemma StillDistinct(batch: seq<Event>, before: seq<Event>, after: seq<Event>, e: Event)
    requires DistinctIds(batch + before) && DistinctIds(after) && FreshId(e.id, batch)
    requires forall x | x in after :: x in before || x == e
    ensures DistinctIds(batch + after)
  {
    var all := batch + after;
    forall i, j | 0 <= i < j < |all| ensures all[i].id != all[j].id {
      if i < |batch| <= j && after[j - |batch|] in before {
        var k := IndexOf(before, after[j - |batch|]);
        assert (batch + before)[i] == batch[i] && (batch + before)[|batch| + k] == all[j];
      } else if j < |batch| {
        assert (batch + before)[i] == batch[i] && (batch + before)[j] == batch[j];
      } else if i < |batch| {
        assert batch[i] in batch;
      } else {
        assert all[i] == after[i - |batch|] && all[j] == after[j - |batch|];
      }
    }
  }

  lemma ReversedTwice(keys: seq<string>)
    ensures Reversed(Reversed(keys)) == keys
  {
  }

  lemma ZipParts(events: seq<Event>, keys: seq<string>)
    requires |events| == |keys|
    ensures Events(Zip(events, keys)) == events && Keys(Zip(events, keys)) == keys
  {
  }

  // ---------- the gate over whole runs ----------

  /** Before the gate's time a flush does nothing; from then on it takes the whole queue. */
  lemma ClosedGateDoesNothing(u: Setup, b: Books, call: FlushCall)
    requires b.q.maxlen > 0
    ensures call.start < b.gate.retryAfter ==> Begin(b, call.start).1 == [] && Whole(u, b, call) == b
    ensures call.start >= b.gate.retryAfter ==>
      Begin(b, call.start).1 == b.q.entries && Begin(b, call.start).0.q.entries == []
  {
  }

  /** What the gate sees of a flush. */
  function ResultOf(batch: seq<Entry>, outcome: SendOutcome): FlushGate.Result {
    if batch == [] then NothingQueued else if outcome == Returned(true) then Delivered else NotDelivered
  }

  function Seen(b: Books, call: FlushCall): FlushGate.Flush {
    FlushGate.Flush(call.start, call.finish, ResultOf(Begin(b, call.start).1, call.outcome))
  }

  /** A flush moves the gate as the gate's own law says. */
  lemma FlushMovesGate(u: Setup, b: Books, call: FlushCall)
    requires b.q.maxlen > 0
    ensures Whole(u, b, call).gate == FlushGate.Next(b.gate, u.flushInterval, Seen(b, call))
  {
  }

  function BooksAfter(u: Setup, b: Books, calls: seq<FlushCall>): (r: Books)
    requires b.q.maxlen > 0
    ensures r.q.maxlen == b.q.maxlen
    decreases |calls|, 1
  {
    if calls == [] then b else Whole(u, BooksBeforeLast(u, b, calls), calls[|calls| - 1])
  }

  /** The books when the last flush is called. */
  function BooksBeforeLast(u: Setup, b: Books, calls: seq<FlushCall>): (r: Books)
    requires b.q.maxlen > 0 && calls != []
    ensures r.q.maxlen == b.q.maxlen
    decreases |calls|, 0
  {
    var n := |calls| - 1;
    ArriveAll(BooksAfter(u, b, calls[..n]), u.policy, u.attached, calls[n].before)
  }

  /** When the failures since the last delivery were recorded: flushes that had a batch to send and did not deliver it. */
  function FailureTimes(u: Setup, b: Books, calls: seq<FlushCall>): seq<real>
    requires b.q.maxlen > 0
  {
    if calls == [] then []
    else
      var n := |calls| - 1;
      var before := FailureTimes(u, b, calls[..n]);
      if Begin(BooksBeforeLast(u, b, calls), calls[n].start).1 == [] then before
      else if calls[n].outcome == Returned(true) then []
      else before + [calls[n].finish]
  }

  function SeenAll(u: Setup, b: Books, calls: seq<FlushCall>): (r: seq<FlushGate.Flush>)
    requires b.q.maxlen > 0
    ensures |r| == |calls|
    ensures forall i | 0 <= i < |r| :: r[i].start == calls[i].start && r[i].finish == calls[i].finish
  {
    if calls == [] then []
    else
      var n := |calls| - 1;
      SeenAll(u, b, calls[..n]) + [Seen(BooksBeforeLast(u, b, calls), calls[n])]
  }

  lemma {:induction false} GateFollowsLaw(u: Setup, b: Books, calls: seq<FlushCall>)
    requires b.q.maxlen > 0 && b.gate == FlushGate.FRESH
    ensures BooksAfter(u, b, calls).gate == FlushGate.GateAfter(u.flushInterval, SeenAll(u, b, calls))
    ensures FailureTimes(u, b, calls) == FlushGate.StreakTimes(u.flushInterval, SeenAll(u, b, calls))
  {
    if calls != [] {
      var n := |calls| - 1;
      GateFollowsLaw(u, b, calls[..n]);
      var log := SeenAll(u, b, calls);
      assert log[..n] == SeenAll(u, b, calls[..n]);
      FlushMovesGate(u, BooksBeforeLast(u, b, calls), calls[n]);
    }
  }

  ghost predicate OneAfterAnother(calls: seq<FlushCall>) {
    && (forall i | 0 <= i < |calls| :: calls[i].start <= calls[i].finish)
    && (forall i, j | 0 <= i < j < |calls| :: calls[i].finish <= calls[j].start)
  }

  /**
   Over every run of flushes that do not overlap, with events arriving before and during each, and any outcomes: the
   k-th failure in a row is recorded at least the sum of the first k - 1 backoff delays after the first one.
   */
  lemma {:induction false} FailuresAreSeparated(u: Setup, b: Books, calls: seq<FlushCall>, k: nat)
    requires b.q.maxlen > 0 && b.gate == FlushGate.FRESH && u.flushInterval > 0.0 && OneAfterAnother(calls)
    requires 0 < k <= |FailureTimes(u, b, calls)| && k <= 1025
    ensures var ts := FailureTimes(u, b, calls);
      ts[k - 1] - ts[0] >= Backoff.TotalDelay(k - 1, u.flushInterval, 300.0)
  {
    hide Backoff.TotalDelay;
    hide FailureTimes;
    GateFollowsLaw(u, b, calls);
    FlushGate.BackoffSeparatesFailures(u.flushInterval, SeenAll(u, b, calls), k);
  }

  // ---------- one flush ----------

  /** A failed flush with nothing added meanwhile leaves events, keys and records as they were. */
  lemma FailedFlushRestores(b: Books, outcome: SendOutcome, start: real, flushInterval: real, now: real, failing: set<string>)
    requires |b.q.entries| <= b.q.maxlen && IsOpen(b.gate, start) && outcome != Returned(true)
    ensures var (b1, batch) := Begin(b, start);
      var b2 := Finish(b1, batch, outcome, flushInterval, now, failing);
      && b2.q == b.q.(flushed := b.q.flushed + |b.q.entries|)
      && b2.records == b.records
      && b2.failed == b.failed + |b.q.entries| && b2.sent == b.sent
  {
    DrainThenRequeue(b.q);
    assert Discarded(Drain(b.q), b.q.entries) == [];
  }

  /** An accepted flush leaves nothing of its batch: what is queued arrived meanwhile, and its own records are gone. */
  lemma AcceptedFlushClears(b: Books, key: string, start: real, flushInterval: real, now: real, failing: set<string>)
    requires IsOpen(b.gate, start)
    requires key in Keys(b.q.entries) && key != "" && key !in failing
    ensures var (b1, batch) := Begin(b, start);
      var b2 := Finish(b1, batch, Returned(true), flushInterval, now, failing);
      b2.q.entries == [] && key !in b2.records && b2.sent == b.sent + |b.q.entries| && b2.failed == b.failed
  {
    DeletedIsGone(b.records, Keys(b.q.entries), failing, key);
  }

  lemma {:induction false} DeletedIsGone(records: map<string, string>, keys: seq<string>, failing: set<string>, key: string)
    requires key in keys && key != "" && key !in failing
    ensures key !in Deleted(records, keys, failing)
  {
    var n := |keys| - 1;
    assert keys == keys[..n] + [keys[n]];
    if keys[n] != key {
      DeletedIsGone(records, keys[..n], failing, key);
    }
  }
}
