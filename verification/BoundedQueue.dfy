/**
 The bounded queue as its callers should see it: a sequence of entries, each an event with the key of its
 Redis record, and the counters. `EventBuffer` keeps the same thing as a deque plus a map from object
 identity to key.
 */
module BoundedQueue {
  import opened Common

  /** `id` is the object's address, which a later object may reuse; `arrival` numbers the events in order. */
  datatype Event = Event(id: int, arrival: nat, payload: string)

  /** The empty key marks an event that was never persisted. */
  datatype Entry = Entry(event: Event, key: string)

  datatype Policy = Drop | Block | Raise

  datatype Queue = Queue(maxlen: nat, entries: seq<Entry>, buffered: nat, flushed: nat, dropped: nat)

  predicate IsFull(q: Queue) {
    |q.entries| >= q.maxlen
  }

  function Events(entries: seq<Entry>): (r: seq<Event>)
    ensures |r| == |entries| && forall i | 0 <= i < |r| :: r[i] == entries[i].event
  {
    if entries == [] then [] else [entries[0].event] + Events(entries[1..])
  }

  function Keys(entries: seq<Entry>): (r: seq<string>)
    ensures |r| == |entries| && forall i | 0 <= i < |r| :: r[i] == entries[i].key
  {
    if entries == [] then [] else [entries[0].key] + Keys(entries[1..])
  }

  function Zip(events: seq<Event>, keys: seq<string>): (r: seq<Entry>)
    requires |events| == |keys|
    ensures |r| == |events| && forall i | 0 <= i < |r| :: r[i] == Entry(events[i], keys[i])
  {
    seq(|events|, i requires 0 <= i < |events| => Entry(events[i], keys[i]))
  }

  /** The keys that name a record. */
  function RealKeys(entries: seq<Entry>): seq<string> {
    if entries == [] then []
    else RealKeys(entries[..|entries| - 1]) + if entries[|entries| - 1].key != "" then [entries[|entries| - 1].key] else []
  }

  /** What a stored record turns out to be when it is read back: missing or malformed, or an event. */
  datatype Loaded = Unusable | Usable(entry: Entry)

  /** How often `x` occurs. */
  function Count<T(==)>(xs: seq<T>, x: T): nat {
    if xs == [] then 0 else Count(xs[..|xs| - 1], x) + if xs[|xs| - 1] == x then 1 else 0
  }

  // ---------- the operations ----------

  /** What one round of an add comes to. */
  datatype AddResult = Added | MustWait | BufferFull

  function AddOutcome(q: Queue, policy: Policy): AddResult {
    if !IsFull(q) || policy == Drop then Added
    else if policy == Block then MustWait
    else BufferFull
  }

  /** Append at the tail; a full queue loses its head. */
  function Append(q: Queue, entry: Entry): Queue
    requires q.maxlen > 0
  {
    var kept := if IsFull(q) && q.entries != [] then q.entries[1..] else q.entries;
    q.(entries := kept + [entry], buffered := q.buffered + 1)
  }

  /** What an append costs a full queue. */
  function Lost(q: Queue): seq<Entry> {
    if IsFull(q) && q.entries != [] then [q.entries[0]] else []
  }

  function Add(q: Queue, policy: Policy, entry: Entry): Queue
    requires q.maxlen > 0
  {
    if AddOutcome(q, policy) != Added then q
    else Append(q, entry).(dropped := q.dropped + if IsFull(q) then 1 else 0)
  }

  function Drain(q: Queue): Queue {
    q.(entries := [], flushed := q.flushed + |q.entries|)
  }

  /** Put a batch back in front; what no longer fits is cut off at the tail and counted as dropped. */
  function Requeue(q: Queue, batch: seq<Entry>): Queue {
    var all := batch + q.entries;
    q.(entries := all[..Min(|all|, q.maxlen)], dropped := q.dropped + |Discarded(q, batch)|)
  }

  /** The tail that a requeue cuts off. */
  function Discarded(q: Queue, batch: seq<Entry>): seq<Entry> {
    var all := batch + q.entries;
    all[Min(|all|, q.maxlen)..]
  }

  function Clear(q: Queue): Queue {
    q.(entries := [])
  }

  /** One record loaded at startup: a plain append, with no count for what a full queue loses. */
  function Load(q: Queue, found: Loaded): Queue
    requires q.maxlen > 0
  {
    if found.Unusable? then q else Append(q, found.entry)
  }

  function LoadAll(q: Queue, found: seq<Loaded>): Queue
    requires q.maxlen > 0
    decreases |found|
  {
    if found == [] then q else LoadAll(Load(q, found[0]), found[1..])
  }

  // ---------- object identity ----------

  predicate DistinctIds(events: seq<Event>) {
    forall i, j | 0 <= i < j < |events| :: events[i].id != events[j].id
  }

  /** No listed object lives at this address. */
  predicate FreshId(id: int, events: seq<Event>) {
    forall e | e in events :: e.id != id
  }

  /** Each loaded event is a new object: its address is that of no object in the queue at that moment. */
  predicate LoadsFreshObjects(q: Queue, found: seq<Loaded>)
    requires q.maxlen > 0
    decreases |found|
  {
    found != [] ==>
      && (found[0].Usable? ==> FreshId(found[0].entry.event.id, Events(q.entries)) && found[0].entry.key != "")
      && LoadsFreshObjects(Load(q, found[0]), found[1..])
  }

  // ---------- algebra ----------

  lemma {:induction false} EventsAppend(a: seq<Entry>, b: seq<Entry>)
    ensures Events(a + b) == Events(a) + Events(b)
    ensures Keys(a + b) == Keys(a) + Keys(b)
  {
  }

  lemma {:induction false} CountAppend<T>(a: seq<T>, b: seq<T>, x: T)
    ensures Count(a + b, x) == Count(a, x) + Count(b, x)
  {
    if b == [] {
      assert a + b == a;
    } else {
      var n := |b| - 1;
      assert (a + b)[..|a + b| - 1] == a + b[..n];
      CountAppend(a, b[..n], x);
    }
  }

  lemma CountOne<T>(y: T, x: T)
    ensures Count([y], x) == if y == x then 1 else 0
  {
    assert [y][..0] == [];
  }

  lemma {:induction false} CountMember<T>(xs: seq<T>, x: T)
    ensures Count(xs, x) > 0 <==> x in xs
  {
    if xs != [] {
      var n := |xs| - 1;
      CountMember(xs[..n], x);
      assert xs == xs[..n] + [xs[n]];
    }
  }

  lemma CountReversed(keys: seq<string>, x: string)
    ensures Count(Reversed(keys), x) == Count(keys, x)
  {
    if keys != [] {
      CountReversed(keys[1..], x);
      CountAppend(Reversed(keys[1..]), [keys[0]], x);
      assert keys == [keys[0]] + keys[1..];
      CountAppend([keys[0]], keys[1..], x);
      assert Count([keys[0]], x) == if keys[0] == x then 1 else 0;
    }
  }

  /** An append trades the new event for the head that a full queue loses. */
  lemma AppendEvents(q: Queue, entry: Entry)
    requires q.maxlen > 0 && |q.entries| <= q.maxlen
    ensures Events(Lost(q)) + Events(Append(q, entry).entries) == Events(q.entries) + [entry.event]
  {
  }

  /** A requeue neither loses nor invents an event: what is not in the queue was cut off. */
  lemma RequeueEvents(q: Queue, batch: seq<Entry>)
    ensures Events(Requeue(q, batch).entries) + Events(Discarded(q, batch)) == Events(batch) + Events(q.entries)
  {
    assert Requeue(q, batch).entries + Discarded(q, batch) == batch + q.entries;
    EventsAppend(Requeue(q, batch).entries, Discarded(q, batch));
    EventsAppend(batch, q.entries);
  }

  function Reversed(keys: seq<string>): (r: seq<string>)
    ensures |r| == |keys| && forall i | 0 <= i < |r| :: r[i] == keys[|keys| - 1 - i]
  {
    if keys == [] then [] else Reversed(keys[1..]) + [keys[0]]
  }

  /** Pushing one more entry in front of a requeued batch: the queue's last entry is the one cut off. */
  lemma PushFront(q: Queue, batch: seq<Entry>, i: nat)
    requires i < |batch| && q.maxlen > 0
    ensures var before := Requeue(q, batch[i + 1..]);
      var after := Requeue(q, batch[i..]);
      var n := |before.entries| - 1;
      if IsFull(before) then
        && after == before.(entries := [batch[i]] + before.entries[..n], dropped := before.dropped + 1)
        && Discarded(q, batch[i..]) == [before.entries[n]] + Discarded(q, batch[i + 1..])
      else
        && after == before.(entries := [batch[i]] + before.entries)
        && Discarded(q, batch[i..]) == Discarded(q, batch[i + 1..]) == []
  {
    var all := batch[i + 1..] + q.entries;
    assert batch[i..] + q.entries == [batch[i]] + all;
  }

  lemma {:induction false} RealKeysAppend(a: seq<Entry>, b: seq<Entry>)
    ensures RealKeys(a + b) == RealKeys(a) + RealKeys(b)
  {
    if b == [] {
      assert a + b == a;
    } else {
      var n := |b| - 1;
      assert (a + b)[..|a + b| - 1] == a + b[..n];
      RealKeysAppend(a, b[..n]);
    }
  }

  /** A failed send with nothing added meanwhile leaves the entries and their keys as they were. */
  lemma DrainThenRequeue(q: Queue)
    requires |q.entries| <= q.maxlen
    ensures Requeue(Drain(q), q.entries) == q.(flushed := q.flushed + |q.entries|)
  {
    assert q.entries + Drain(q).entries == q.entries;
  }

  /** Tail-first collection of evicted keys: one more entry cut off in front of those already cut off. */
  lemma EvictOne(evictedKeys: seq<string>, entry: Entry, discarded: seq<Entry>)
    requires Reversed(evictedKeys) == RealKeys(discarded)
    ensures Reversed(if entry.key != "" then evictedKeys + [entry.key] else evictedKeys) == RealKeys([entry] + discarded)
  {
    RealKeysAppend([entry], discarded);
    assert RealKeys([entry]) == if entry.key != "" then [entry.key] else [];
    assert Reversed(evictedKeys + [entry.key]) == [entry.key] + Reversed(evictedKeys);
  }

  /** The events found in usable records. */
  function Found(found: seq<Loaded>): seq<Entry>
    decreases |found|
  {
    if found == [] then []
    else (if found[0].Usable? then [found[0].entry] else []) + Found(found[1..])
  }

  /** At most the last `n` of them. */
  function Last(entries: seq<Entry>, n: nat): seq<Entry> {
    if |entries| <= n then entries else entries[|entries| - n..]
  }

  lemma LastOfLast(a: seq<Entry>, b: seq<Entry>, n: nat)
    ensures Last(Last(a, n) + b, n) == Last(a + b, n)
  {
  }

  lemma LoadOneKeepsNewest(q: Queue, found: Loaded)
    requires q.maxlen > 0 && |q.entries| <= q.maxlen
    ensures var x := if found.Usable? then [found.entry] else [];
      Load(q, found) == q.(entries := Last(q.entries + x, q.maxlen), buffered := q.buffered + |x|)
  {
    if found.Unusable? {
      assert q.entries + [] == q.entries;
    }
  }

  /** Loading keeps the newest `maxlen` of what was there and what was found, and counts each but drops none. */
  lemma {:induction false} LoadAllKeepsNewest(q: Queue, found: seq<Loaded>)
    requires q.maxlen > 0 && |q.entries| <= q.maxlen
    ensures LoadAll(q, found) == q.(
      entries := Last(q.entries + Found(found), q.maxlen),
      buffered := q.buffered + |Found(found)|)
    decreases |found|
  {
    hide Load;
    hide Last;
    if found == [] {
      LastOfAll(q.entries, q.maxlen);
    } else {
      var x := if found[0].Usable? then [found[0].entry] else [];
      var q1, rest := Load(q, found[0]), found[1..];
      LoadOneKeepsNewest(q, found[0]);
      assert LoadAll(q, found) == LoadAll(q1, rest) && Found(found) == x + Found(rest);
      hide LoadAll;
      hide Found;
      LastOfAll(q.entries + x, q.maxlen);
      LoadAllKeepsNewest(q1, rest);
      LastOfLast(q.entries + x, Found(rest), q.maxlen);
      assert (q.entries + x) + Found(rest) == q.entries + Found(found);
    }
  }

  lemma LastOfAll(entries: seq<Entry>, n: nat)
    ensures |Last(entries, n)| <= n
    ensures |entries| <= n ==> Last(entries + [], n) == entries
  {
    assert entries + [] == entries;
  }
}
