/** Memory and Redis agree over every run of the handshake in which the buffers are not cleared. */
module Durability {
  import opened Common
  import opened BoundedQueue
  import opened Handshake

  function Bit(b: bool): nat {
    if b then 1 else 0
  }

  /** The record keys a flush is responsible for. */
  function FlightKeys(f: Flight): seq<string> {
    match f.phase
    case Deleting(keys, _) => keys
    case Done => []
    case _ => RealKeys(f.batch)
  }

  /** How many places in memory are responsible for this record: queue entries, held batches, pending deletions. */
  function Owners(s: System, key: string): nat {
    Count(RealKeys(s.q.entries), key) + Tally(s.flights, FlightKeys, key)
  }

  /**
   The store against `owners` places in memory: each stored key, and each key that has expired under its owner,
   has exactly one owner or is untracked. Untracked are records left by an earlier run and not loaded yet,
   records of events evicted by a load, records whose deletion failed, and records whose writing raised.
   */
  predicate Matches(s: System, key: string, owners: nat) {
    && owners + Bit(key in s.untracked) == Bit(key in s.store) + Bit(key in s.lapsed)
    && !(key in s.store && key in s.lapsed)
  }

  ghost predicate Balanced(s: System) {
    forall key :: Matches(s, key, Owners(s, key))
  }

  /** Runs in which the buffers are not cleared. */
  predicate Keeps(a: Action) {
    !a.Clear? && !a.Wipe?
  }

  lemma {:induction false} RealKeysAreReal(entries: seq<Entry>)
    ensures "" !in RealKeys(entries)
    ensures forall x | x in entries && x.key != "" :: x.key in RealKeys(entries)
    ensures |RealKeys(entries)| <= |entries|
  {
    if entries != [] {
      var n := |entries| - 1;
      RealKeysAreReal(entries[..n]);
      assert entries == entries[..n] + [entries[n]];
    }
  }

  lemma RealKeysOne(entry: Entry, key: string)
    ensures Count(RealKeys([entry]), key) == Bit(entry.key != "" && entry.key == key)
  {
    assert [entry][..0] == [];
  }

  /** A delete call turns one owner's record into none, or into an untracked one. */
  lemma DeleteMatches(s: System, gone: string, deleted: bool, key: string, owners: nat)
    requires gone != "" && Matches(s, key, owners + Bit(key == gone))
    ensures Matches(DeleteRecord(s, gone, deleted), key, owners)
  {
  }

  lemma WriteMatches(s: System, entry: Entry, key: string, owners: nat)
    requires entry.key == "" || UnusedKey(s, entry.key)
    requires Matches(s, key, owners)
    ensures Matches(WriteRecord(s, entry), key, owners + Bit(entry.key != "" && key == entry.key))
  {
  }

  lemma AppendOwners(q: Queue, entry: Entry, key: string)
    requires q.maxlen > 0
    ensures Count(RealKeys(Append(q, entry).entries), key) + Count(RealKeys(Lost(q)), key)
         == Count(RealKeys(q.entries), key) + Count(RealKeys([entry]), key)
    ensures Count(RealKeys(Lost(q)), key) <= Count(RealKeys(q.entries), key)
    ensures Lost(q) == [] ==> Count(RealKeys(Lost(q)), key) == 0
  {
    var kept := if Lost(q) != [] then q.entries[1..] else q.entries;
    assert q.entries == Lost(q) + kept;
    RealKeysAppend(Lost(q), kept);
    RealKeysAppend(kept, [entry]);
    CountAppend(RealKeys(Lost(q)), RealKeys(kept), key);
    CountAppend(RealKeys(kept), RealKeys([entry]), key);
  }

  /** Evicting the head of a full queue takes its record away, or leaves it untracked. */
  lemma EvictMatches(s: System, deleted: bool, key: string, kept: nat)
    requires Lost(s.q) != []
    requires Matches(s, key, kept + Count(RealKeys(Lost(s.q)), key))
    ensures Matches(DeleteRecord(s, Lost(s.q)[0].key, deleted), key, kept)
  {
    var head := Lost(s.q)[0];
    assert Lost(s.q) == [head];
    RealKeysOne(head, key);
    if head.key != "" {
      DeleteMatches(s, head.key, deleted, key, kept);
    }
  }

  /** A key nobody has used is not that of the evicted record. */
  lemma EvictedIsUsed(s: System, entry: Entry, deleted: bool)
    requires Balanced(s) && s.q.maxlen > 0 && Lost(s.q) != []
    requires UnusedKey(s, entry.key)
    ensures UnusedKey(DeleteRecord(s, Lost(s.q)[0].key, deleted), entry.key)
  {
    hide Count;
    hide Tally;
    hide RealKeys;
    var head := Lost(s.q)[0];
    if head.key != "" {
      assert Lost(s.q) == [head];
      AppendOwners(s.q, entry, head.key);
      RealKeysOne(head, head.key);
      assert Matches(s, head.key, Owners(s, head.key));
    }
  }

  lemma AddBalanced(s: System, entry: Entry, deleted: bool, key: string)
    requires s.q.maxlen > 0 && Balanced(s)
    requires entry.key == "" || UnusedKey(s, entry.key)
    ensures var t := AddStep(s, entry, deleted); Matches(t, key, Owners(t, key))
  {
    hide Count;
    hide Tally;
    hide RealKeys;
    assert Matches(s, key, Owners(s, key));
    if AddOutcome(s.q, s.policy) == Added {
      AppendOwners(s.q, entry, key);
      RealKeysOne(entry, key);
      var kept := Owners(s, key) - Count(RealKeys(Lost(s.q)), key);
      var s1 := s;
      if Lost(s.q) != [] {
        EvictMatches(s, deleted, key, kept);
        if entry.key != "" {
          EvictedIsUsed(s, entry, deleted);
        }
        s1 := DeleteRecord(s, Lost(s.q)[0].key, deleted);
      }
      WriteMatches(s1, entry, key, kept);
    }
  }

  lemma LoadBalanced(s: System, entry: Entry, key: string)
    requires s.q.maxlen > 0 && Balanced(s)
    requires entry.key != "" && entry.key in s.untracked
    ensures var t := LoadStep(s, entry); Matches(t, key, Owners(t, key))
  {
    hide Count;
    hide Tally;
    hide RealKeys;
    assert Matches(s, key, Owners(s, key));
    AppendOwners(s.q, entry, key);
    RealKeysOne(entry, key);
    CountMember(RealKeys(Lost(s.q)), key);
    if Lost(s.q) != [] {
      RealKeysOne(Lost(s.q)[0], key);
      assert Lost(s.q) == [Lost(s.q)[0]];
    }
  }

  lemma DrainBalanced(s: System, key: string)
    ensures Owners(DrainStep(s), key) == Owners(s, key)
  {
    TallyAppend(s.flights, FlightKeys, Flight(s.q.entries, Sending), key);
  }

  lemma ReturnBalanced(s: System, i: nat, r: SendResult, key: string)
    requires InPhase(s, i, Sending)
    ensures Owners(ReturnStep(s, i, r), key) == Owners(s, key)
  {
    TallyUpdate(s.flights, FlightKeys, i, ReturnStep(s, i, r).flights[i], key);
  }

  lemma RequeueBalanced(s: System, i: nat, key: string)
    requires InPhase(s, i, Refused)
    ensures Owners(RequeueStep(s, i), key) == Owners(s, key)
  {
    hide Count;
    hide Tally;
    hide RealKeys;
    var batch := s.flights[i].batch;
    var entries := BoundedQueue.Requeue(s.q, batch).entries;
    var cut := Discarded(s.q, batch);
    assert entries + cut == batch + s.q.entries;
    RealKeysAppend(entries, cut);
    RealKeysAppend(batch, s.q.entries);
    CountAppend(RealKeys(entries), RealKeys(cut), key);
    CountAppend(RealKeys(batch), RealKeys(s.q.entries), key);
    CountReversed(RealKeys(cut), key);
    TallyUpdate(s.flights, FlightKeys, i, RequeueStep(s, i).flights[i], key);
  }

  lemma DeleteBalanced(s: System, i: nat, deleted: bool, key: string)
    requires i < |s.flights| && s.flights[i].phase.Deleting? && s.flights[i].phase.keys != []
    requires s.flights[i].phase.keys[0] != ""
    requires Matches(s, key, Owners(s, key))
    ensures var t := DeleteStep(s, i, deleted); Matches(t, key, Owners(t, key))
  {
    hide Count;
    hide Tally;
    hide RealKeys;
    var keys := s.flights[i].phase.keys;
    var t := DeleteStep(s, i, deleted);
    TallyUpdate(s.flights, FlightKeys, i, t.flights[i], key);
    assert keys == [keys[0]] + keys[1..];
    CountAppend([keys[0]], keys[1..], key);
    CountOne(keys[0], key);
    DeleteMatches(s, keys[0], deleted, key, Owners(t, key));
  }

  lemma SettleBalanced(s: System, i: nat, key: string)
    requires i < |s.flights| && s.flights[i].phase.Deleting? && s.flights[i].phase.keys == []
    ensures Owners(SettleStep(s, i), key) == Owners(s, key)
  {
    TallyUpdate(s.flights, FlightKeys, i, SettleStep(s, i).flights[i], key);
  }

  /** No flush tries to delete the empty key. */
  ghost predicate DeletesRealKeys(s: System) {
    forall f | f in s.flights :: RealDeletion(f)
  }

  predicate RealDeletion(f: Flight) {
    f.phase.Deleting? ==> "" !in f.phase.keys
  }

  lemma PhaseDeletesRealKeys(s: System, i: nat, t: System)
    requires DeletesRealKeys(s) && i < |s.flights| && |t.flights| == |s.flights|
    requires t.flights == s.flights[i := t.flights[i]] && RealDeletion(t.flights[i])
    ensures DeletesRealKeys(t)
  {
  }

  lemma ReversedMembers(keys: seq<string>, key: string)
    requires key !in keys
    ensures key !in Reversed(keys)
  {
  }

  lemma StepDeletesRealKeys(s: System, a: Action)
    requires s.q.maxlen > 0 && Enabled(s, a) && DeletesRealKeys(s)
    ensures DeletesRealKeys(Step(s, a))
  {
    match a
    case Return(i, r) =>
      RealKeysAreReal(s.flights[i].batch);
      PhaseDeletesRealKeys(s, i, ReturnStep(s, i, r));
    case Requeue(i) =>
      var keys := RealKeys(Discarded(s.q, s.flights[i].batch));
      RealKeysAreReal(Discarded(s.q, s.flights[i].batch));
      ReversedMembers(keys, "");
      PhaseDeletesRealKeys(s, i, RequeueStep(s, i));
    case Delete(i, deleted) =>
      assert RealDeletion(s.flights[i]);
      PhaseDeletesRealKeys(s, i, DeleteStep(s, i, deleted));
    case Settle(i) => PhaseDeletesRealKeys(s, i, SettleStep(s, i));
    case _ =>
  }

  lemma StepBalancedAt(s: System, a: Action, key: string)
    requires s.q.maxlen > 0 && Enabled(s, a) && Keeps(a)
    requires Balanced(s) && DeletesRealKeys(s)
    ensures var t := Step(s, a); Matches(t, key, Owners(t, key))
  {
    assert Matches(s, key, Owners(s, key));
    match a
    case Add(e, k, deleted) => AddBalanced(s, Entry(e, k), deleted, key);
    case Load(e, k) => LoadBalanced(s, Entry(e, k), key);
    case Drain => DrainBalanced(s, key);
    case Return(i, r) => ReturnBalanced(s, i, r, key);
    case Requeue(i) => RequeueBalanced(s, i, key);
    case Delete(i, deleted) =>
      assert RealDeletion(s.flights[i]);
      DeleteBalanced(s, i, deleted, key);
    case Settle(i) => SettleBalanced(s, i, key);
    case Expire(_) =>
    case Stray(_, _) =>
  }

  ghost predicate RunsKeeping(acts: seq<Action>) {
    forall a | a in acts :: Keeps(a)
  }

  lemma {:induction false} RunBalanced(s: System, acts: seq<Action>, t: System)
    requires Balanced(s) && DeletesRealKeys(s)
    requires Runs(s, acts, t) && RunsKeeping(acts)
    ensures Balanced(t)
    decreases |acts|
  {
    if acts != [] {
      forall key ensures Matches(Step(s, acts[0]), key, Owners(Step(s, acts[0]), key)) {
        StepBalancedAt(s, acts[0], key);
      }
      StepDeletesRealKeys(s, acts[0]);
      RunBalanced(Step(s, acts[0]), acts[1..], t);
    }
  }

  /**
   Memory and Redis agree: in every reachable state, with any number of batches in flight, failing Redis calls
   and expiring records included, a key has at most one owner in memory; an owned key is in the store unless it
   has expired, so no record goes before its event is delivered or dropped; and a stored key nobody owns is
   untracked.
   */
  lemma MemoryAndRedisAgree(maxlen: nat, policy: Policy, store: map<string, string>, acts: seq<Action>, s: System, key: string)
    requires maxlen > 0 && Runs(Initial(maxlen, policy, store), acts, s) && RunsKeeping(acts)
    ensures Owners(s, key) <= 1
    ensures Owners(s, key) == 1 ==> (key in s.store) != (key in s.lapsed)
    ensures key in s.store ==> (Owners(s, key) == 1) != (key in s.untracked)
  {
    RunBalanced(Initial(maxlen, policy, store), acts, s);
    assert Matches(s, key, Owners(s, key));
  }

  lemma {:induction false} NothingInFlight(fs: seq<Flight>, key: string)
    requires forall f | f in fs :: f.phase == Done
    ensures Tally(fs, FlightKeys, key) == 0
  {
    if fs != [] {
      NothingInFlight(fs[..|fs| - 1], key);
    }
  }

  /** At rest, with no Redis failure and no expiry behind it, the store holds exactly the queue's own records. */
  lemma AtRestStoreIsQueue(maxlen: nat, policy: Policy, store: map<string, string>, acts: seq<Action>, s: System)
    requires maxlen > 0 && Runs(Initial(maxlen, policy, store), acts, s) && RunsKeeping(acts)
    requires forall f | f in s.flights :: f.phase == Done
    requires s.untracked == {} && s.lapsed == {}
    ensures s.store.Keys == set k | k in RealKeys(s.q.entries)
  {
    forall key ensures key in s.store <==> key in RealKeys(s.q.entries) {
      MemoryAndRedisAgree(maxlen, policy, store, acts, s, key);
      NothingInFlight(s.flights, key);
      CountMember(RealKeys(s.q.entries), key);
    }
  }

  // ---------- what the records say ----------

  /** The entry is in the queue or in a batch that may come back to it. */
  ghost predicate Pending(s: System, x: Entry) {
    x in s.q.entries || exists f | f in s.flights :: Holding(f) && x in f.batch
  }

  /** A stored record under a pending entry's key is that entry's own event. */
  ghost predicate Faithful(s: System) {
    forall x | Pending(s, x) && x.key != "" && x.key in s.store :: s.store[x.key] == x.event.payload
  }

  lemma PendingHasOwner(s: System, x: Entry)
    requires Pending(s, x) && x.key != ""
    ensures Owners(s, x.key) >= 1
  {
    CountMember(RealKeys(s.q.entries), x.key);
    TallyMember(s.flights, FlightKeys, x.key);
    if x in s.q.entries {
      RealKeysAreReal(s.q.entries);
    } else {
      var f :| f in s.flights && Holding(f) && x in f.batch;
      RealKeysAreReal(f.batch);
      assert x.key in FlightKeys(f);
    }
  }

  /** A flight with the batch and hold it had, or no hold at all, makes nothing pending. */
  lemma PhasePending(s: System, i: nat, t: System, x: Entry)
    requires i < |s.flights| && |t.flights| == |s.flights| && t.flights == s.flights[i := t.flights[i]]
    requires Holding(t.flights[i]) ==> Holding(s.flights[i]) && t.flights[i].batch == s.flights[i].batch
    requires forall y | y in t.q.entries :: y in s.q.entries || (Holding(s.flights[i]) && y in s.flights[i].batch)
    requires Pending(t, x)
    ensures Pending(s, x)
  {
    assert s.flights[i] in s.flights;
    if x !in t.q.entries {
      var f :| f in t.flights && Holding(f) && x in f.batch;
      if f !in s.flights {
        assert f == t.flights[i];
      }
    }
  }

  lemma AppendPending(q: Queue, entry: Entry)
    requires q.maxlen > 0
    ensures forall y | y in Append(q, entry).entries :: y in q.entries || y == entry
  {
  }

  lemma RequeuePending(s: System, i: nat, x: Entry)
    requires InPhase(s, i, Refused) && Pending(RequeueStep(s, i), x)
    ensures Pending(s, x)
  {
    assert forall y | y in BoundedQueue.Requeue(s.q, s.flights[i].batch).entries :: y in s.flights[i].batch + s.q.entries;
    PhasePending(s, i, RequeueStep(s, i), x);
  }

  lemma StepPending(s: System, a: Action, x: Entry)
    requires s.q.maxlen > 0 && Enabled(s, a)
    requires Pending(Step(s, a), x)
    ensures Pending(s, x) || ((a.Add? || a.Load?) && x == Entry(a.event, a.key))
  {
    match a
    case Add(e, key, _) => AppendPending(s.q, Entry(e, key));
    case Load(e, key) => AppendPending(s.q, Entry(e, key));
    case Return(i, r) => PhasePending(s, i, ReturnStep(s, i, r), x);
    case Requeue(i) => RequeuePending(s, i, x);
    case Delete(i, deleted) => PhasePending(s, i, DeleteStep(s, i, deleted), x);
    case Settle(i) => PhasePending(s, i, SettleStep(s, i), x);
    case _ =>
  }

  lemma StepStore(s: System, a: Action, key: string)
    requires s.q.maxlen > 0 && Enabled(s, a) && key in Step(s, a).store
    ensures (key in s.store && Step(s, a).store[key] == s.store[key])
         || (a.Add? && key == a.key && key != "" && Step(s, a).store[key] == a.event.payload)
         || (a.Stray? && key == a.key)
  {
  }

  lemma StepFaithful(s: System, a: Action)
    requires s.q.maxlen > 0 && Enabled(s, a) && Balanced(s) && Faithful(s)
    ensures Faithful(Step(s, a))
  {
    var t := Step(s, a);
    forall x | Pending(t, x) && x.key != "" && x.key in t.store
      ensures t.store[x.key] == x.event.payload
    {
      StepPending(s, a, x);
      StepStore(s, a, x.key);
      if Pending(s, x) {
        PendingHasOwner(s, x);
        assert Matches(s, x.key, Owners(s, x.key));
      }
    }
  }

  lemma {:induction false} RunFaithful(s: System, acts: seq<Action>, t: System)
    requires Balanced(s) && DeletesRealKeys(s) && Faithful(s)
    requires Runs(s, acts, t) && RunsKeeping(acts)
    ensures Faithful(t)
    decreases |acts|
  {
    if acts != [] {
      RunBalanced(s, acts[..1], Step(s, acts[0]));
      StepDeletesRealKeys(s, acts[0]);
      StepFaithful(s, acts[0]);
      RunFaithful(Step(s, acts[0]), acts[1..], t);
    }
  }

  /**
   At-least-once across a crash: in every reachable state the record of an event still pending is in the store
   and holds that very event, unless the event was never persisted or its record has expired.
   */
  lemma PendingEventIsDurable(maxlen: nat, policy: Policy, store: map<string, string>, acts: seq<Action>, s: System, x: Entry)
    requires maxlen > 0 && Runs(Initial(maxlen, policy, store), acts, s) && RunsKeeping(acts)
    requires Pending(s, x)
    ensures x.key == "" || x.key in s.lapsed || (x.key in s.store && s.store[x.key] == x.event.payload)
  {
    RunFaithful(Initial(maxlen, policy, store), acts, s);
    if x.key != "" {
      PendingHasOwner(s, x);
      MemoryAndRedisAgree(maxlen, policy, store, acts, s, x.key);
    }
  }
}
