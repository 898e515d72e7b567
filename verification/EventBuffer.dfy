/** The event buffer: a bounded deque, a map from object identity to Redis key, and the Redis store. */
module EventBuffering {
  import opened Common
  import opened BoundedQueue

  /** The external store's event namespace: key to serialised event. */
  class RedisHandler {
    var records: map<string, string>

    constructor (records: map<string, string>)
      ensures this.records == records
    {
      this.records := records;
    }

    method SetKey(key: string, value: string)
      modifies this
      ensures records == old(records)[key := value]
    {
      records := records[key := value];
    }

    method Delete(key: string)
      modifies this
      ensures records == old(records) - {key}
    {
      records := records - {key};
    }
  }

  /** The records left after deleting the real keys among `keys`, except those whose delete call fails. */
  function Deleted(records: map<string, string>, keys: seq<string>, failing: set<string>): map<string, string> {
    if keys == [] then records
    else
      var rest := Deleted(records, keys[..|keys| - 1], failing);
      var key := keys[|keys| - 1];
      if key != "" && key !in failing then rest - {key} else rest
  }

  lemma {:induction false} NothingDeleted(keys: seq<string>, failing: set<string>)
    ensures Deleted(map[], keys, failing) == map[]
  {
    if keys != [] {
      NothingDeleted(keys[..|keys| - 1], failing);
    }
  }

  /** How writing a record ends: with the record stored, with none, or with a record stored by a call that raised. */
  datatype Write = Confirmed | Failed | Unconfirmed

  /** The key an event gets: none unless its record is known to be stored. */
  function KeyGiven(key: string, write: Write): string {
    if write == Confirmed then key else ""
  }

  /** The key of the record that an add deletes: the head's, when a full queue drops it. */
  function EvictedKeys(q: Queue, policy: Policy): seq<string> {
    if AddOutcome(q, policy) == Added && IsFull(q) && q.entries != [] then [q.entries[0].key] else []
  }

  /** The store after one round of an add. */
  function StoreAfterAdd(q: Queue, policy: Policy, records: map<string, string>, a: Arrival): map<string, string> {
    var kept := Deleted(records, EvictedKeys(q, policy), a.failing);
    if AddOutcome(q, policy) == Added && a.write != Failed then kept[a.key := a.event.payload] else kept
  }

  /** One event to be added: the key its record would get, how writing that ends, and which deletions fail. */
  datatype Arrival = Arrival(event: Event, key: string, write: Write, failing: set<string>)

  /** Without Redis nothing is ever written. */
  function Reaching(attached: bool, a: Arrival): Arrival {
    if attached then a else a.(write := Failed)
  }

  function QueueAfterAdd(q: Queue, policy: Policy, a: Arrival): Queue
    requires q.maxlen > 0
  {
    Add(q, policy, Entry(a.event, KeyGiven(a.key, a.write)))
  }

  /** What may happen to a writer waiting for room: a poll that finds nothing changed, or another coroutine's drain. */
  datatype Wakeup = Polled | Drained(at: real)

  predicate RoomIsMade(wakeups: seq<Wakeup>) {
    exists w | w in wakeups :: w.Drained?
  }

  /** The key recorded for an event, or the empty key. */
  function KeyOf(keyMap: map<int, string>, e: Event): string {
    if e.id in keyMap then keyMap[e.id] else ""
  }

  /** Deque and identity map read together as entries. */
  function Entries(events: seq<Event>, keyMap: map<int, string>): (r: seq<Entry>)
    ensures |r| == |events| && forall i | 0 <= i < |r| :: r[i] == Entry(events[i], KeyOf(keyMap, events[i]))
  {
    seq(|events|, i requires 0 <= i < |events| => Entry(events[i], KeyOf(keyMap, events[i])))
  }

  /** No two listed objects share an address, and the map has real keys for addresses of listed objects only. */
  ghost predicate WellMapped(events: seq<Event>, keyMap: map<int, string>) {
    && DistinctIds(events)
    && (forall id | id in keyMap :: !FreshId(id, events) && keyMap[id] != "")
  }

  /** The map with one more key, or as it was when there is none. */
  function Record(keyMap: map<int, string>, id: int, key: string): map<int, string> {
    if key != "" then keyMap[id := key] else keyMap
  }

  lemma PushBackMapped(events: seq<Event>, keyMap: map<int, string>, e: Event, key: string)
    requires WellMapped(events, keyMap) && FreshId(e.id, events)
    ensures WellMapped(events + [e], Record(keyMap, e.id, key))
    ensures Entries(events + [e], Record(keyMap, e.id, key)) == Entries(events, keyMap) + [Entry(e, key)]
  {
    var after := events + [e];
    assert after[|events|] == e;
    forall id | id in keyMap ensures !FreshId(id, after) {
      var x :| x in events && x.id == id;
      assert x in after;
    }
  }

  lemma PushFrontMapped(events: seq<Event>, keyMap: map<int, string>, e: Event, key: string)
    requires WellMapped(events, keyMap) && FreshId(e.id, events)
    ensures WellMapped([e] + events, Record(keyMap, e.id, key))
    ensures Entries([e] + events, Record(keyMap, e.id, key)) == [Entry(e, key)] + Entries(events, keyMap)
  {
    var after := [e] + events;
    assert after[0] == e;
    forall id | id in keyMap ensures !FreshId(id, after) {
      var x :| x in events && x.id == id;
      assert x in after;
    }
  }

  lemma DropHeadMapped(events: seq<Event>, keyMap: map<int, string>)
    requires WellMapped(events, keyMap) && events != []
    ensures WellMapped(events[1..], keyMap - {events[0].id})
    ensures Entries(events[1..], keyMap - {events[0].id}) == Entries(events, keyMap)[1..]
    ensures KeyOf(keyMap, events[0]) == Entries(events, keyMap)[0].key
  {
    forall id | id in keyMap - {events[0].id} ensures !FreshId(id, events[1..]) {
      var x :| x in events && x.id == id;
      assert x in events[1..];
    }
  }

  lemma DropLastMapped(events: seq<Event>, keyMap: map<int, string>)
    requires WellMapped(events, keyMap) && events != []
    ensures var n := |events| - 1;
      && WellMapped(events[..n], keyMap - {events[n].id})
      && Entries(events[..n], keyMap - {events[n].id}) == Entries(events, keyMap)[..n]
      && KeyOf(keyMap, events[n]) == Entries(events, keyMap)[n].key
  {
    var n := |events| - 1;
    forall id | id in keyMap - {events[n].id} ensures !FreshId(id, events[..n]) {
      var x :| x in events && x.id == id;
      assert x in events[..n];
    }
  }

  /** The map once the keys of these events have been popped. */
  function Unpopped(keyMap: map<int, string>, events: seq<Event>): map<int, string> {
    map id | id in keyMap && FreshId(id, events) :: keyMap[id]
  }

  lemma PopOne(keyMap: map<int, string>, events: seq<Event>, i: nat)
    requires DistinctIds(events) && i < |events|
    ensures KeyOf(Unpopped(keyMap, events[..i]), events[i]) == KeyOf(keyMap, events[i])
    ensures Unpopped(keyMap, events[..i]) - {events[i].id} == Unpopped(keyMap, events[..i + 1])
  {
    assert events[..i + 1] == events[..i] + [events[i]];
    assert FreshId(events[i].id, events[..i]);
    forall id ensures FreshId(id, events[..i + 1]) <==> FreshId(id, events[..i]) && id != events[i].id {
      assert events[i] in events[..i + 1];
      assert forall e | e in events[..i] :: e in events[..i + 1];
    }
  }

  /** One pass of the requeue loop: what it did to queue and evicted keys is one step further into the batch. */
  lemma PushedFront(q: Queue, batch: seq<Entry>, i: nat, before: Queue, after: Queue, evictedKey: string, known: seq<string>)
    requires q.maxlen > 0 && i < |batch| && before == Requeue(q, batch[i + 1..])
    requires |before.entries| <= q.maxlen && Reversed(known) == RealKeys(Discarded(q, batch[i + 1..]))
    requires
      if IsFull(before) then
        && evictedKey == before.entries[q.maxlen - 1].key
        && after == before.(entries := [batch[i]] + before.entries[..q.maxlen - 1], dropped := before.dropped + 1)
      else
        evictedKey == "" && after == before.(entries := [batch[i]] + before.entries)
    ensures after == Requeue(q, batch[i..])
    ensures Reversed(if evictedKey != "" then known + [evictedKey] else known) == RealKeys(Discarded(q, batch[i..]))
  {
    PushFront(q, batch, i);
    if IsFull(before) {
      EvictOne(known, before.entries[q.maxlen - 1], Discarded(q, batch[i + 1..]));
    }
  }

  class EventBuffer {
    const maxlen: nat
    const policy: Policy
    var redis: RedisHandler?
    var eventBuffer: seq<Event>
    var eventRedisKeys: map<int, string>
    var eventsBuffered: nat
    var eventsFlushed: nat
    var eventsDropped: nat
    var redisPersistFailures: nat
    var lastFlushTime: Option<real>

    /**
     The deque is within bounds, no two of its objects share an address, and every address in the key map is
     that of an object in the deque.
     */
    ghost predicate Valid()
      reads this
    {
      && maxlen > 0
      && |eventBuffer| <= maxlen
      && WellMapped(eventBuffer, eventRedisKeys)
    }

    ghost function View(): Queue
      reads this
    {
      Queue(maxlen, Entries(eventBuffer, eventRedisKeys), eventsBuffered, eventsFlushed, eventsDropped)
    }

    /** What the store holds; nothing when there is none. */
    ghost function Records(): map<string, string>
      reads this, redis
    {
      if redis == null then map[] else redis.records
    }

    constructor (bufferSize: nat, policy: Policy)
      requires bufferSize > 0
      ensures Valid() && fresh(this)
      ensures maxlen == bufferSize && this.policy == policy && redis == null
      ensures View() == Queue(bufferSize, [], 0, 0, 0)
      ensures redisPersistFailures == 0 && lastFlushTime == None
    {
      maxlen := bufferSize;
      this.policy := policy;
      redis := null;
      eventBuffer := [];
      eventRedisKeys := map[];
      eventsBuffered, eventsFlushed, eventsDropped, redisPersistFailures := 0, 0, 0, 0;
      lastFlushTime := None;
    }

    method IsEventBufferFull() returns (full: bool)
      ensures full == IsFull(View())
    {
      full := |eventBuffer| >= maxlen;
    }

    method ForgetOldestEventKey() returns (key: string)
      modifies this`eventRedisKeys
      ensures
        if eventBuffer == [] then key == "" && eventRedisKeys == old(eventRedisKeys)
        else
          && key == KeyOf(old(eventRedisKeys), eventBuffer[0])
          && eventRedisKeys == old(eventRedisKeys) - {eventBuffer[0].id}
    {
      if eventBuffer == [] {
        return "";
      }
      key := KeyOf(eventRedisKeys, eventBuffer[0]);
      eventRedisKeys := eventRedisKeys - {eventBuffer[0].id};
    }

    method ForgetNewestEventKey() returns (key: string)
      modifies this`eventRedisKeys
      ensures
        if eventBuffer == [] then key == "" && eventRedisKeys == old(eventRedisKeys)
        else
          var newest := eventBuffer[|eventBuffer| - 1];
          && key == KeyOf(old(eventRedisKeys), newest)
          && eventRedisKeys == old(eventRedisKeys) - {newest.id}
    {
      if eventBuffer == [] {
        return "";
      }
      var newest := eventBuffer[|eventBuffer| - 1];
      key := KeyOf(eventRedisKeys, newest);
      eventRedisKeys := eventRedisKeys - {newest.id};
    }

    /** `append` on a deque with a maximum length: a full deque discards its head. */
    method DequeAppend(event: Event)
      requires maxlen > 0 && |eventBuffer| <= maxlen
      modifies this`eventBuffer
      ensures eventBuffer == (if |old(eventBuffer)| == maxlen then old(eventBuffer)[1..] else old(eventBuffer)) + [event]
    {
      eventBuffer := eventBuffer + [event];
      if |eventBuffer| > maxlen {
        eventBuffer := eventBuffer[1..];
      }
    }

    /** `appendleft` on a deque with a maximum length: a full deque discards its tail. */
    method DequeAppendLeft(event: Event)
      requires maxlen > 0 && |eventBuffer| <= maxlen
      modifies this`eventBuffer
      ensures eventBuffer ==
        [event] + if |old(eventBuffer)| == maxlen then old(eventBuffer)[..maxlen - 1] else old(eventBuffer)
    {
      eventBuffer := [event] + eventBuffer;
      if |eventBuffer| > maxlen {
        eventBuffer := eventBuffer[..maxlen];
      }
    }

    /** Deletes the given keys' records; a delete that fails is logged and leaves its record. */
    method ConfirmEventRedisKeys(keys: seq<string>, failing: set<string>)
      modifies redis
      ensures redis != null ==> redis.records == Deleted(old(redis.records), keys, failing)
    {
      if redis == null {
        return;
      }
      for i := 0 to |keys|
        invariant redis.records == Deleted(old(redis.records), keys[..i], failing)
      {
        assert keys[..i + 1][..i] == keys[..i];
        if keys[i] != "" && keys[i] !in failing {
          redis.Delete(keys[i]);
        }
      }
      assert keys[..|keys|] == keys;
    }

    /** Writes the event's record under a globally unique key; a call that raises gives the event no key. */
    method PersistEventToRedis(event: Event, uniqueKey: string, write: Write) returns (key: Option<string>)
      modifies this`redisPersistFailures, redis
      ensures key == if redis != null && write == Confirmed then Some(uniqueKey) else None
      ensures redis != null ==>
        redis.records == if write == Failed then old(redis.records) else old(redis.records)[uniqueKey := event.payload]
      ensures redisPersistFailures == old(redisPersistFailures) + if redis != null && write != Confirmed then 1 else 0
    {
      if redis == null {
        return None;
      }
      if write != Failed {
        redis.SetKey(uniqueKey, event.payload);
      }
      if write != Confirmed {
        redisPersistFailures := redisPersistFailures + 1;
        return None;
      }
      return Some(uniqueKey);
    }

    /** The overflow policy for one slot: appending is safe, the caller must wait, or the buffer-full error. */
    method ResolveEventOverflow(failing: set<string>) returns (outcome: AddResult)
      requires maxlen > 0
      modifies this`eventRedisKeys, this`eventsDropped, redis
      ensures outcome == AddOutcome(old(View()), policy)
      ensures |eventBuffer| < maxlen || policy == Drop ==> outcome == Added
      ensures |eventBuffer| >= maxlen && policy == Block ==> outcome == MustWait
      ensures |eventBuffer| >= maxlen && policy == Raise ==> outcome == BufferFull
      ensures
        if outcome == Added && |eventBuffer| >= maxlen then
          && eventsDropped == old(eventsDropped) + 1
          && eventRedisKeys == old(eventRedisKeys) - {eventBuffer[0].id}
          && (redis != null ==>
            redis.records == Deleted(old(redis.records), [KeyOf(old(eventRedisKeys), eventBuffer[0])], failing))
        else
          && eventsDropped == old(eventsDropped)
          && eventRedisKeys == old(eventRedisKeys)
          && (redis != null ==> redis.records == old(redis.records))
    {
      var full := IsEventBufferFull();
      if !full {
        return Added;
      }
      if policy == Raise {
        return BufferFull;
      }
      if policy == Block {
        return MustWait;
      }
      eventsDropped := eventsDropped + 1;
      var droppedKey := ForgetOldestEventKey();
      if droppedKey != "" {
        ConfirmEventRedisKeys([droppedKey], failing);
      }
      return Added;
    }

    /** The deque without the head that one more event pushes out. */
    ghost function Kept(): seq<Event>
      requires maxlen > 0
      reads this
    {
      if |eventBuffer| == maxlen then eventBuffer[1..] else eventBuffer
    }

    /** Appends an event for which there is room, or whose predecessor's key is forgotten, and writes its record. */
    method AppendAndPersist(a: Arrival)
      requires maxlen > 0 && |eventBuffer| <= maxlen
      requires WellMapped(Kept(), eventRedisKeys) && FreshId(a.event.id, Kept()) && a.key != ""
      modifies this`eventBuffer, this`eventRedisKeys, this`eventsBuffered, this`redisPersistFailures, redis
      ensures Valid() && eventBuffer == old(Kept()) + [a.event]
      ensures View() == old(View()).(
        entries := Entries(old(Kept()), old(eventRedisKeys)) + [Entry(a.event, KeyGiven(a.key, Reaching(redis != null, a).write))],
        buffered := old(eventsBuffered) + 1)
      ensures Records() ==
        if Reaching(redis != null, a).write == Failed then old(Records()) else old(Records())[a.key := a.event.payload]
      ensures redisPersistFailures == old(redisPersistFailures) + if redis != null && a.write != Confirmed then 1 else 0
    {
      PushBackMapped(Kept(), eventRedisKeys, a.event, KeyGiven(a.key, Reaching(redis != null, a).write));
      DequeAppend(a.event);
      eventsBuffered := eventsBuffered + 1;
      var key := PersistEventToRedis(a.event, a.key, a.write);
      if key.Some? {
        eventRedisKeys := eventRedisKeys[a.event.id := key.value];
      }
      assert eventRedisKeys == Record(old(eventRedisKeys), a.event.id, KeyGiven(a.key, Reaching(redis != null, a).write));
    }

    /**
     One round of `add_event` under the lock. The new event is a fresh object, so no object still in the deque has its
     address; its record's key has never been used.
     */
    method AddRound(a: Arrival) returns (outcome: AddResult)
      requires Valid() && FreshId(a.event.id, eventBuffer) && a.key != ""
      modifies this`eventBuffer, this`eventRedisKeys, this`eventsBuffered, this`eventsDropped, this`redisPersistFailures, redis
      ensures Valid() && outcome == AddOutcome(old(View()), policy)
      ensures View() == QueueAfterAdd(old(View()), policy, Reaching(redis != null, a))
      ensures Records() == StoreAfterAdd(old(View()), policy, old(Records()), Reaching(redis != null, a))
      ensures redisPersistFailures ==
        old(redisPersistFailures) + if outcome == Added && redis != null && a.write != Confirmed then 1 else 0
      ensures |old(eventBuffer)| < maxlen || policy == Drop ==> outcome == Added
      ensures |old(eventBuffer)| == maxlen && policy == Block ==> outcome == MustWait
      ensures |old(eventBuffer)| == maxlen && policy == Raise ==> outcome == BufferFull
      ensures
        if outcome == Added then
          && eventBuffer == (if |old(eventBuffer)| == maxlen then old(eventBuffer)[1..] else old(eventBuffer)) + [a.event]
          && eventsBuffered == old(eventsBuffered) + 1
          && eventsDropped == old(eventsDropped) + if |old(eventBuffer)| == maxlen then 1 else 0
        else
          eventBuffer == old(eventBuffer) && View() == old(View()) && Records() == old(Records())
    {
      assert Deleted(Records(), [], a.failing) == Records();
      hide Deleted;
      NothingDeleted(EvictedKeys(View(), policy), a.failing);
      if IsFull(View()) {
        DropHeadMapped(eventBuffer, eventRedisKeys);
      }
      hide WellMapped;
      hide FreshId;
      hide Entries;
      hide DistinctIds;
      outcome := ResolveEventOverflow(a.failing);
      if outcome == Added {
        AppendAndPersist(a);
      }
    }

    /**
     `add_event`: round after round until the event is in, the buffer-full error is raised, or the given wake-ups are
     used up and the writer still waits. While it waits it changes nothing; the first wake-up that finds room adds.
     */
    method AddEvent(a: Arrival, wakeups: seq<Wakeup>) returns (outcome: AddResult)
      requires Valid() && FreshId(a.event.id, eventBuffer) && a.key != ""
      modifies this, redis
      ensures Valid() && redis == old(redis)
      ensures var blocked := AddOutcome(old(View()), policy) == MustWait;
        && outcome == (if blocked && RoomIsMade(wakeups) then Added else AddOutcome(old(View()), policy))
        && (if blocked && !RoomIsMade(wakeups) then View() == old(View()) && Records() == old(Records())
            else
              var q := if blocked then Drain(old(View())) else old(View());
              && View() == QueueAfterAdd(q, policy, Reaching(redis != null, a))
              && Records() == StoreAfterAdd(q, policy, old(Records()), Reaching(redis != null, a)))
      ensures
        var full := |old(eventBuffer)| == maxlen;
        if !full || policy == Drop then
          && outcome == Added
          && eventBuffer == (if full then old(eventBuffer)[1..] else old(eventBuffer)) + [a.event]
          && eventsDropped == old(eventsDropped) + if full then 1 else 0
        else if policy == Block && RoomIsMade(wakeups) then
          outcome == Added && eventBuffer == [a.event] && eventsDropped == old(eventsDropped)
        else
          && outcome == (if policy == Block then MustWait else BufferFull)
          && eventBuffer == old(eventBuffer) && View() == old(View()) && Records() == old(Records())
    {
      ghost var q, records := View(), Records();
      for i := 0 to |wakeups|
        invariant Valid() && redis == old(redis) && FreshId(a.event.id, eventBuffer)
        invariant if RoomIsMade(wakeups[..i]) then eventBuffer == [] else eventBuffer == old(eventBuffer)
        invariant i > 0 ==> AddOutcome(q, policy) == MustWait
        invariant Records() == records
        invariant RoomIsMade(wakeups[..i]) || View() == q
        invariant RoomIsMade(wakeups[..i]) ==> View() == Drain(q)
      {
        assert wakeups[..i + 1] == wakeups[..i] + [wakeups[i]];
        outcome := AddRound(a);
        if outcome != MustWait {
          assert forall w | w in wakeups[..i] :: w in wakeups;
          return;
        }
        if wakeups[i].Drained? {
          var _, _ := FlushEventsWithKeys(wakeups[i].at);
          assert RoomIsMade(wakeups[..i + 1]);
        }
      }
      assert wakeups[..|wakeups|] == wakeups;
      outcome := AddRound(a);
    }

    /** Empties the deque and hands out its events with their keys, forgetting the keys. */
    method FlushEventsWithKeys(now: real) returns (events: seq<Event>, keys: seq<string>)
      requires Valid()
      modifies this`eventBuffer, this`eventRedisKeys, this`eventsFlushed, this`lastFlushTime
      ensures Valid() && lastFlushTime == Some(now)
      ensures |events| == |keys| && Zip(events, keys) == old(View().entries)
      ensures DistinctIds(events) && events == old(eventBuffer)
      ensures View() == Drain(old(View()))
    {
      events := eventBuffer;
      keys := [];
      for i := 0 to |events|
        modifies this`eventRedisKeys
        invariant |keys| == i
        invariant forall j | 0 <= j < i :: keys[j] == KeyOf(old(eventRedisKeys), events[j])
        invariant eventRedisKeys == Unpopped(old(eventRedisKeys), events[..i])
      {
        PopOne(old(eventRedisKeys), events, i);
        keys := keys + [KeyOf(eventRedisKeys, events[i])];
        eventRedisKeys := eventRedisKeys - {events[i].id};
      }
      assert events[..|events|] == events;
      assert Zip(events, keys) == old(View().entries);
      eventBuffer := [];
      eventsFlushed := eventsFlushed + |events|;
      lastFlushTime := Some(now);
    }

    /** Pushes one unsent event in front; a full deque discards its tail, whose key is forgotten and returned. */
    method RequeueOneEvent(event: Event, key: string) returns (evictedKey: string)
      requires Valid() && FreshId(event.id, eventBuffer)
      modifies this`eventBuffer, this`eventRedisKeys, this`eventsDropped
      ensures Valid()
      ensures
        var before := old(View());
        if IsFull(before) then
          && evictedKey == before.entries[maxlen - 1].key
          && View() == before.(entries := [Entry(event, key)] + before.entries[..maxlen - 1], dropped := before.dropped + 1)
        else
          && evictedKey == ""
          && View() == before.(entries := [Entry(event, key)] + before.entries)
      ensures eventBuffer ==
        [event] + if |old(eventBuffer)| == maxlen then old(eventBuffer)[..maxlen - 1] else old(eventBuffer)
    {
      evictedKey := "";
      ghost var kept, keptKeys := eventBuffer, eventRedisKeys;
      var full := IsEventBufferFull();
      if full {
        DropLastMapped(eventBuffer, eventRedisKeys);
        eventsDropped := eventsDropped + 1;
        evictedKey := ForgetNewestEventKey();
        kept, keptKeys := eventBuffer[..maxlen - 1], eventRedisKeys;
      }
      PushFrontMapped(kept, keptKeys, event, key);
      DequeAppendLeft(event);
      if key != "" {
        eventRedisKeys := eventRedisKeys[event.id := key];
      }
      assert eventBuffer == [event] + kept && eventRedisKeys == Record(keptKeys, event.id, key);
    }

    /**
     Puts unsent events back in front, newest first, so that they end up in their old order. The keys pushed out
     at the tail are returned for deletion, tail first.
     */
    method RequeueEventsInMemory(events: seq<Event>, keys: seq<string>) returns (evictedKeys: seq<string>)
      requires Valid()
      requires |events| == |keys|
      requires DistinctIds(events + eventBuffer)
      modifies this`eventBuffer, this`eventRedisKeys, this`eventsDropped
      ensures Valid()
      ensures View() == Requeue(old(View()), Zip(events, keys))
      ensures Reversed(evictedKeys) == RealKeys(Discarded(old(View()), Zip(events, keys)))
    {
      evictedKeys := [];
      ghost var q, batch, start := View(), Zip(events, keys), eventBuffer;
      assert batch[|events|..] + q.entries == q.entries;
      assert View() == Requeue(q, batch[|events|..]) && Discarded(q, batch[|events|..]) == [];
      assert FromBatchOrStart(eventBuffer, events[|events|..], start);
      assert Reversed(evictedKeys) == [] == RealKeys([]);
      hide *;
      for i := |events| downto 0
        invariant Valid()
        invariant View() == Requeue(q, batch[i..])
        invariant Reversed(evictedKeys) == RealKeys(Discarded(q, batch[i..]))
        invariant FromBatchOrStart(eventBuffer, events[i..], start)
      {
        ghost var before, known := View(), evictedKeys;
        FreshAmong(events, start, eventBuffer, i);
        WithinBounds();
        var evictedKey := RequeueOneEvent(events[i], keys[i]);
        if evictedKey != "" {
          evictedKeys := evictedKeys + [evictedKey];
        }
        assert batch[i] == Entry(events[i], keys[i]);
        PushedFront(q, batch, i, before, View(), evictedKey, known);
      }
      assert batch[0..] == batch;
    }

    lemma WithinBounds()
      requires Valid()
      ensures View().maxlen == maxlen > 0 && |View().entries| == |eventBuffer| <= maxlen
      ensures IsFull(View()) <==> |eventBuffer| == maxlen
    {
    }

    /** Loads one stored record; at capacity the oldest item's key is forgotten before the deque evicts it. */
    method LoadOneEventFromRedis(found: Loaded)
      requires Valid()
      requires found.Usable? ==> FreshId(found.entry.event.id, eventBuffer) && found.entry.key != ""
      modifies this`eventBuffer, this`eventRedisKeys, this`eventsBuffered
      ensures Valid()
      ensures View() == Load(old(View()), found)
    {
      if found.Unusable? {
        return;
      }
      var full := IsEventBufferFull();
      ghost var kept, keptKeys := eventBuffer, eventRedisKeys;
      if full {
        DropHeadMapped(eventBuffer, eventRedisKeys);
        kept, keptKeys := eventBuffer[1..], eventRedisKeys - {eventBuffer[0].id};
        var _ := ForgetOldestEventKey();
      }
      PushBackMapped(kept, keptKeys, found.entry.event, found.entry.key);
      DequeAppend(found.entry.event);
      eventsBuffered := eventsBuffered + 1;
      eventRedisKeys := eventRedisKeys[found.entry.event.id := found.entry.key];
    }

    /** Attaches the store and loads what its key listing leads to, in listing order. */
    method InitializeRedis(handler: RedisHandler, found: seq<Loaded>)
      requires Valid() && LoadsFreshObjects(View(), found)
      modifies this`redis, this`eventBuffer, this`eventRedisKeys, this`eventsBuffered
      ensures Valid() && redis == handler
      ensures View() == LoadAll(old(View()), found)
    {
      redis := handler;
      for i := 0 to |found|
        invariant Valid() && redis == handler
        invariant LoadsFreshObjects(View(), found[i..])
        invariant LoadAll(View(), found[i..]) == LoadAll(old(View()), found)
      {
        EntriesEvents(eventBuffer, eventRedisKeys);
        LoadOneEventFromRedis(found[i]);
        assert found[i..][1..] == found[i + 1..];
      }
    }

    /** Deletes the store's listed records until a Redis call fails. */
    method ClearRedisBuffers(listing: seq<string>, failsAt: nat)
      requires failsAt <= |listing|
      modifies redis
      ensures redis != null ==> redis.records == old(redis.records) - (set k | k in listing[..failsAt])
    {
      if redis == null {
        return;
      }
      for i := 0 to failsAt
        invariant redis.records == old(redis.records) - (set k | k in listing[..i])
      {
        redis.Delete(listing[i]);
      }
    }

    /** Empties deque and key map, so that a later object cannot inherit a key, and then the store. */
    method ClearBuffer(listing: seq<string>, failsAt: nat)
      requires Valid() && failsAt <= |listing|
      modifies this`eventBuffer, this`eventRedisKeys, redis
      ensures Valid() && View() == Clear(old(View())) && eventRedisKeys == map[]
      ensures redis != null ==> redis.records == old(redis.records) - (set k | k in listing[..failsAt])
    {
      eventBuffer := [];
      eventRedisKeys := map[];
      ClearRedisBuffers(listing, failsAt);
    }
  }

  lemma EntriesEvents(events: seq<Event>, keyMap: map<int, string>)
    ensures Events(Entries(events, keyMap)) == events
  {
  }

  ghost predicate FromBatchOrStart(current: seq<Event>, batch: seq<Event>, start: seq<Event>) {
    forall e | e in current :: e in batch || e in start
  }

  ghost function IndexOf(events: seq<Event>, e: Event): (i: nat)
    requires e in events
    ensures i < |events| && events[i] == e
  {
    var i: nat :| i < |events| && events[i] == e;
    i
  }

  lemma FreshAmong(events: seq<Event>, start: seq<Event>, current: seq<Event>, i: nat)
    requires i < |events| && DistinctIds(events + start)
    requires FromBatchOrStart(current, events[i + 1..], start)
    ensures FreshId(events[i].id, current)
    ensures FromBatchOrStart([events[i]] + current, events[i..], start)
    ensures current != [] ==> FromBatchOrStart([events[i]] + current[..|current| - 1], events[i..], start)
  {
    assert events[i..] == [events[i]] + events[i + 1..];
    var all := events + start;
    forall e | e in current ensures e.id != events[i].id {
      var j := if e in start then IndexOf(start, e) + |events| else IndexOf(events[i + 1..], e) + i + 1;
      assert all[j] == e && all[i] == events[i];
    }
  }
}
