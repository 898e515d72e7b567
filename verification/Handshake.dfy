/**
 The at-least-once handshake as a step system. Adds, drains and requeues are atomic, because each holds the
 buffer's lock; sends and record deletions run outside it, so any number of batches may be in flight while
 other steps happen. Every response of the server and every failing Redis call is a choice of the step taken.
 */
module Handshake {
  import opened Common
  import opened BoundedQueue

  // ---------- what a send reports ----------

  datatype Fate = Acknowledged | Rejected | Deferred

  /** One batch as it finally went to the server, and what became of it. */
  datatype Leaf = Leaf(items: seq<Event>, fate: Fate)

  function LeafItems(leaves: seq<Leaf>): seq<Event> {
    if leaves == [] then [] else leaves[0].items + LeafItems(leaves[1..])
  }

  lemma SingleLeaf(items: seq<Event>, fate: Fate)
    ensures LeafItems([Leaf(items, fate)]) == items
  {
    assert [Leaf(items, fate)][1..] == [];
  }

  predicate AllSettled(leaves: seq<Leaf>) {
    forall l | l in leaves :: l.fate != Deferred
  }

  /** The sender's contract: the leaves cover the batch in order, and success means that every leaf is settled. */
  predicate Delivery(items: seq<Event>, leaves: seq<Leaf>, ok: bool) {
    LeafItems(leaves) == items && (ok <==> AllSettled(leaves))
  }

  function WithFate(leaves: seq<Leaf>, fate: Fate): set<Event> {
    set l, e | l in leaves && e in l.items && l.fate == fate :: e
  }

  /** What the transport gives back: its verdict, or an exception after some part of the batch was sent. */
  datatype SendResult = Returned(ok: bool, leaves: seq<Leaf>) | Raised(leaves: seq<Leaf>)

  predicate Honest(items: seq<Event>, r: SendResult) {
    match r
    case Returned(ok, leaves) => Delivery(items, leaves, ok)
    case Raised(leaves) => LeafItems(leaves) <= items
  }

  // ---------- state ----------

  /**
   `Sending` and `Refused` batches may come back to the queue; a `Deleting` one has been accepted (or put back),
   and its flush is deleting the listed records before it updates the counters.
   */
  datatype Phase = Sending | Refused | Deleting(keys: seq<string>, accepted: bool) | Done

  datatype Flight = Flight(batch: seq<Entry>, phase: Phase)

  datatype System = System(
    policy: Policy,
    q: Queue,
    store: map<string, string>,
    flights: seq<Flight>,
    sent: nat,
    failed: nat,
    // history
    added: seq<Event>,
    delivered: seq<Event>,
    dropped: seq<Event>,
    cleared: seq<Event>,
    loadEvicted: seq<Event>,
    acknowledged: set<Event>,
    rejected: set<Event>,
    untracked: set<string>,
    lapsed: set<string>
  )

  /** A new agent over whatever records an earlier run left in the store. */
  function Initial(maxlen: nat, policy: Policy, store: map<string, string>): System {
    System(policy, Queue(maxlen, [], 0, 0, 0), store, [], 0, 0,
           [], [], [], [], [], {}, {}, store.Keys, {})
  }

  // ---------- steps ----------

  /**
   `Add` carries the key its record got, empty when Redis is absent or failed, and whether deleting an evicted
   record worked; `Load` is one record read back at startup; `Expire` is the store's own time-to-live; `Wipe` is
   one deletion by `clear_buffer` after it has released the lock; `Stray` is a record that Redis stored although
   the write call raised, so that the event it belongs to has no key.
   */
  datatype Action =
    | Add(event: Event, key: string, deleted: bool)
    | Load(event: Event, key: string)
    | Drain
    | Return(flight: nat, result: SendResult)
    | Requeue(flight: nat)
    | Delete(flight: nat, deleted: bool)
    | Settle(flight: nat)
    | Expire(key: string)
    | Clear
    | Wipe(key: string)
    | Stray(key: string, payload: string)

  predicate Alive(f: Flight) {
    f.phase != Done
  }

  /** The batch is still held by its flush and may come back to the queue. */
  predicate Holding(f: Flight) {
    f.phase == Sending || f.phase == Refused
  }

  predicate NewEvent(s: System, e: Event) {
    && e.arrival == |s.added|
    && FreshId(e.id, Events(s.q.entries))
    && forall f | f in s.flights && Alive(f) :: FreshId(e.id, Events(f.batch))
  }

  predicate UnusedKey(s: System, key: string) {
    key !in s.store && key !in s.lapsed && key !in s.untracked
  }

  predicate InPhase(s: System, i: nat, phase: Phase) {
    i < |s.flights| && s.flights[i].phase == phase
  }

  predicate Enabled(s: System, a: Action) {
    match a
    case Add(e, key, _) => NewEvent(s, e) && (key == "" || UnusedKey(s, key))
    case Load(e, key) => NewEvent(s, e) && key != "" && key in s.untracked && key in s.store && s.store[key] == e.payload
    case Drain => true
    case Return(i, r) => InPhase(s, i, Sending) && Honest(Events(s.flights[i].batch), r)
    case Requeue(i) => InPhase(s, i, Refused)
    case Delete(i, _) => i < |s.flights| && s.flights[i].phase.Deleting? && s.flights[i].phase.keys != []
    case Settle(i) => i < |s.flights| && s.flights[i].phase.Deleting? && s.flights[i].phase.keys == []
    case Expire(key) => key in s.store
    case Clear => true
    case Wipe(_) => true
    case Stray(key, _) => key != "" && UnusedKey(s, key)
  }

  /** One delete call; when it fails the record stays behind, known to nobody. */
  function DeleteRecord(s: System, key: string, deleted: bool): System {
    if key == "" then s
    else if deleted then s.(store := s.store - {key}, lapsed := s.lapsed - {key})
    else s.(untracked := s.untracked + {key})
  }

  function WriteRecord(s: System, entry: Entry): System {
    if entry.key == "" then s else s.(store := s.store[entry.key := entry.event.payload])
  }

  function WithPhase(s: System, i: nat, phase: Phase): System
    requires i < |s.flights|
  {
    s.(flights := s.flights[i := s.flights[i].(phase := phase)])
  }

  function Step(s: System, a: Action): System
    requires s.q.maxlen > 0 && Enabled(s, a)
  {
    match a
    case Add(e, key, deleted) => AddStep(s, Entry(e, key), deleted)
    case Load(e, key) => LoadStep(s, Entry(e, key))
    case Drain => DrainStep(s)
    case Return(i, r) => ReturnStep(s, i, r)
    case Requeue(i) => RequeueStep(s, i)
    case Delete(i, deleted) => DeleteStep(s, i, deleted)
    case Settle(i) => SettleStep(s, i)
    case Expire(key) => s.(store := s.store - {key}, lapsed := s.lapsed + {key})
    case Clear => ClearStep(s)
    case Wipe(key) => s.(store := s.store - {key})
    case Stray(key, payload) => s.(store := s.store[key := payload], untracked := s.untracked + {key})
  }

  /** One round of an add: nothing happens to a writer that must wait or is told that the buffer is full. */
  function AddStep(s: System, entry: Entry, deleted: bool): System
    requires s.q.maxlen > 0
  {
    if AddOutcome(s.q, s.policy) != Added then s
    else
      var s1 := WriteRecord(if Lost(s.q) != [] then DeleteRecord(s, Lost(s.q)[0].key, deleted) else s, entry);
      s1.(q := BoundedQueue.Add(s.q, s.policy, entry),
          added := s.added + [entry.event],
          dropped := s.dropped + Events(Lost(s.q)))
  }

  /** Loading into a full queue evicts its head but leaves the evicted record in the store. */
  function LoadStep(s: System, entry: Entry): System
    requires s.q.maxlen > 0
  {
    s.(q := BoundedQueue.Load(s.q, Usable(entry)),
       added := s.added + [entry.event],
       loadEvicted := s.loadEvicted + Events(Lost(s.q)),
       untracked := s.untracked - {entry.key} + set k | k in RealKeys(Lost(s.q)))
  }

  /** An empty queue starts no flight. */
  function DrainStep(s: System): System {
    if s.q.entries == [] then s
    else s.(q := BoundedQueue.Drain(s.q), flights := s.flights + [Flight(s.q.entries, Sending)])
  }

  function ReturnStep(s: System, i: nat, r: SendResult): System
    requires i < |s.flights|
  {
    var batch := s.flights[i].batch;
    var s1 := s.(acknowledged := s.acknowledged + WithFate(r.leaves, Acknowledged),
                 rejected := s.rejected + WithFate(r.leaves, Rejected));
    if r.Returned? && r.ok then
      WithPhase(s1.(delivered := s.delivered + Events(batch)), i, Deleting(RealKeys(batch), true))
    else WithPhase(s1, i, Refused)
  }

  function RequeueStep(s: System, i: nat): System
    requires i < |s.flights|
  {
    var batch := s.flights[i].batch;
    var cut := Discarded(s.q, batch);
    WithPhase(s.(q := BoundedQueue.Requeue(s.q, batch), dropped := s.dropped + Events(cut)),
              i, Deleting(Reversed(RealKeys(cut)), false))
  }

  /** The next delete call of the flush. */
  function DeleteStep(s: System, i: nat, deleted: bool): System
    requires i < |s.flights| && s.flights[i].phase.Deleting? && s.flights[i].phase.keys != []
  {
    var phase := s.flights[i].phase;
    WithPhase(DeleteRecord(s, phase.keys[0], deleted), i, Deleting(phase.keys[1..], phase.accepted))
  }

  /** The client counts the batch once its records are dealt with. */
  function SettleStep(s: System, i: nat): System
    requires i < |s.flights| && s.flights[i].phase.Deleting?
  {
    var n := |s.flights[i].batch|;
    WithPhase(if s.flights[i].phase.accepted then s.(sent := s.sent + n) else s.(failed := s.failed + n), i, Done)
  }

  function ClearStep(s: System): System {
    s.(q := BoundedQueue.Clear(s.q), cleared := s.cleared + Events(s.q.entries))
  }

  // ---------- runs ----------

  ghost predicate Runs(s: System, acts: seq<Action>, t: System)
    decreases |acts|
  {
    if acts == [] then s == t
    else s.q.maxlen > 0 && Enabled(s, acts[0]) && Runs(Step(s, acts[0]), acts[1..], t)
  }

  lemma StepThenRun(s: System, a: Action, acts: seq<Action>, t: System)
    requires s.q.maxlen > 0 && Enabled(s, a) && Runs(Step(s, a), acts, t)
    ensures Runs(s, [a] + acts, t)
  {
    hide Step;
    assert ([a] + acts)[1..] == acts;
  }

  /** One run after another is a run. */
  lemma {:induction false} RunThenRun(s: System, first: seq<Action>, m: System, second: seq<Action>, t: System)
    requires Runs(s, first, m) && Runs(m, second, t)
    ensures Runs(s, first + second, t)
    decreases |first|
  {
    hide Step;
    if first == [] {
      assert first + second == second;
    } else {
      assert (first + second)[1..] == first[1..] + second;
      RunThenRun(Step(s, first[0]), first[1..], m, second, t);
    }
  }

  // ---------- sums over flights ----------

  function Total(fs: seq<Flight>, part: Flight -> nat): nat {
    if fs == [] then 0 else Total(fs[..|fs| - 1], part) + part(fs[|fs| - 1])
  }

  /** How often `x` occurs in the parts of all flights together. */
  function Tally<T(==)>(fs: seq<Flight>, part: Flight -> seq<T>, x: T): nat {
    if fs == [] then 0 else Tally(fs[..|fs| - 1], part, x) + Count(part(fs[|fs| - 1]), x)
  }

  lemma {:induction false} TotalUpdate(fs: seq<Flight>, part: Flight -> nat, i: nat, f: Flight)
    requires i < |fs|
    ensures Total(fs[i := f], part) + part(fs[i]) == Total(fs, part) + part(f)
  {
    var n := |fs| - 1;
    if i == n {
      assert fs[i := f][..n] == fs[..n];
    } else {
      assert fs[i := f][..n] == fs[..n][i := f];
      TotalUpdate(fs[..n], part, i, f);
    }
  }

  lemma {:induction false} TallyUpdate<T>(fs: seq<Flight>, part: Flight -> seq<T>, i: nat, f: Flight, x: T)
    requires i < |fs|
    ensures Tally(fs[i := f], part, x) + Count(part(fs[i]), x) == Tally(fs, part, x) + Count(part(f), x)
  {
    var n := |fs| - 1;
    if i == n {
      assert fs[i := f][..n] == fs[..n];
    } else {
      assert fs[i := f][..n] == fs[..n][i := f];
      TallyUpdate(fs[..n], part, i, f, x);
    }
  }

  lemma TotalAppend(fs: seq<Flight>, part: Flight -> nat, f: Flight)
    ensures Total(fs + [f], part) == Total(fs, part) + part(f)
  {
    assert (fs + [f])[..|fs|] == fs;
  }

  lemma TallyAppend<T>(fs: seq<Flight>, part: Flight -> seq<T>, f: Flight, x: T)
    ensures Tally(fs + [f], part, x) == Tally(fs, part, x) + Count(part(f), x)
  {
    assert (fs + [f])[..|fs|] == fs;
  }

  lemma {:induction false} TallyMember<T>(fs: seq<Flight>, part: Flight -> seq<T>, x: T)
    ensures Tally(fs, part, x) > 0 <==> exists f | f in fs :: x in part(f)
  {
    if fs != [] {
      var n := |fs| - 1;
      TallyMember(fs[..n], part, x);
      CountMember(part(fs[n]), x);
      assert fs == fs[..n] + [fs[n]];
    }
  }

  /** The events a flush holds and may still put back. */
  function Held(f: Flight): seq<Event> {
    if Holding(f) then Events(f.batch) else []
  }

  function HeldCount(f: Flight): nat {
    |Held(f)|
  }

  /** The events of an accepted batch that `events_sent` does not count yet. */
  function UncountedSent(f: Flight): nat {
    if f.phase.Deleting? && f.phase.accepted then |f.batch| else 0
  }

  /** The events of a batch that went back and that `events_failed` does not count yet. */
  function UncountedFailed(f: Flight): nat {
    if f.phase.Deleting? && !f.phase.accepted then |f.batch| else 0
  }

  // ---------- every event is in exactly one place ----------

  function Places(s: System, e: Event): nat {
    Count(Events(s.q.entries), e) + Tally(s.flights, Held, e) + Count(s.delivered, e)
    + Count(s.dropped, e) + Count(s.cleared, e) + Count(s.loadEvicted, e)
  }

  ghost predicate Placed(s: System) {
    && (forall e :: Count(s.added, e) == Places(s, e))
    && (forall i | 0 <= i < |s.added| :: s.added[i].arrival == i)
  }

  lemma AddPlaced(s: System, entry: Entry, deleted: bool, e: Event)
    requires Counted(s)
    requires Count(s.added, e) == Places(s, e)
    ensures var t := AddStep(s, entry, deleted); Count(t.added, e) == Places(t, e)
  {
    hide Tally;
    hide Count;
    if AddOutcome(s.q, s.policy) == Added {
      AppendPlaced(s.q, entry, e);
      CountAppend(s.added, [entry.event], e);
      CountAppend(s.dropped, Events(Lost(s.q)), e);
    }
  }

  lemma LoadPlaced(s: System, entry: Entry, e: Event)
    requires Counted(s)
    requires Count(s.added, e) == Places(s, e)
    ensures var t := LoadStep(s, entry); Count(t.added, e) == Places(t, e)
  {
    hide Tally;
    AppendPlaced(s.q, entry, e);
    CountAppend(s.added, [entry.event], e);
    CountAppend(s.loadEvicted, Events(Lost(s.q)), e);
  }

  lemma AppendPlaced(q: Queue, entry: Entry, e: Event)
    requires q.maxlen > 0 && |q.entries| <= q.maxlen
    ensures Count(Events(Append(q, entry).entries), e) + Count(Events(Lost(q)), e)
         == Count(Events(q.entries), e) + Count([entry.event], e)
  {
    AppendEvents(q, entry);
    CountAppend(Events(Lost(q)), Events(Append(q, entry).entries), e);
    CountAppend(Events(q.entries), [entry.event], e);
  }

  lemma DrainPlaced(s: System, e: Event)
    requires Count(s.added, e) == Places(s, e)
    ensures var t := DrainStep(s); Count(t.added, e) == Places(t, e)
  {
    hide Tally;
    TallyAppend(s.flights, Held, Flight(s.q.entries, Sending), e);
  }

  lemma ReturnPlaced(s: System, i: nat, r: SendResult, e: Event)
    requires InPhase(s, i, Sending)
    requires Count(s.added, e) == Places(s, e)
    ensures var t := ReturnStep(s, i, r); Count(t.added, e) == Places(t, e)
  {
    TallyUpdate(s.flights, Held, i, ReturnStep(s, i, r).flights[i], e);
    CountAppend(s.delivered, Events(s.flights[i].batch), e);
  }

  lemma RequeuePlaced(s: System, i: nat, e: Event)
    requires InPhase(s, i, Refused)
    requires Count(s.added, e) == Places(s, e)
    ensures var t := RequeueStep(s, i); Count(t.added, e) == Places(t, e)
  {
    hide Tally;
    var batch := s.flights[i].batch;
    var cut := Discarded(s.q, batch);
    RequeueEvents(s.q, batch);
    CountAppend(Events(BoundedQueue.Requeue(s.q, batch).entries), Events(cut), e);
    CountAppend(Events(batch), Events(s.q.entries), e);
    TallyUpdate(s.flights, Held, i, RequeueStep(s, i).flights[i], e);
    CountAppend(s.dropped, Events(cut), e);
  }

  /** A flight that is deleting records holds nothing, before and after a step of its own. */
  lemma DeletingPlaced(s: System, i: nat, t: System, e: Event)
    requires i < |s.flights| && s.flights[i].phase.Deleting?
    requires exists f: Flight :: !Holding(f) && t.flights == s.flights[i := f]
    requires t.q == s.q && t.added == s.added && t.delivered == s.delivered
    requires t.dropped == s.dropped && t.cleared == s.cleared && t.loadEvicted == s.loadEvicted
    requires Count(s.added, e) == Places(s, e)
    ensures Count(t.added, e) == Places(t, e)
  {
    var f: Flight :| !Holding(f) && t.flights == s.flights[i := f];
    TallyUpdate(s.flights, Held, i, f, e);
  }

  lemma ClearPlaced(s: System, e: Event)
    requires Count(s.added, e) == Places(s, e)
    ensures var t := ClearStep(s); Count(t.added, e) == Places(t, e)
  {
    CountAppend(s.cleared, Events(s.q.entries), e);
  }

  lemma StepPlacedAt(s: System, a: Action, e: Event)
    requires Counted(s) && Enabled(s, a)
    requires Count(s.added, e) == Places(s, e)
    ensures var t := Step(s, a); Count(t.added, e) == Places(t, e)
  {
    match a
    case Add(n, key, deleted) => AddPlaced(s, Entry(n, key), deleted, e);
    case Load(n, key) => LoadPlaced(s, Entry(n, key), e);
    case Drain => DrainPlaced(s, e);
    case Return(i, r) => ReturnPlaced(s, i, r, e);
    case Requeue(i) => RequeuePlaced(s, i, e);
    case Delete(i, deleted) =>
      var t := DeleteStep(s, i, deleted);
      assert t.flights == s.flights[i := t.flights[i]] && !Holding(t.flights[i]);
      DeletingPlaced(s, i, t, e);
    case Settle(i) =>
      var t := SettleStep(s, i);
      assert t.flights == s.flights[i := t.flights[i]] && !Holding(t.flights[i]);
      DeletingPlaced(s, i, t, e);
    case Clear => ClearPlaced(s, e);
    case Expire(_) =>
    case Wipe(_) =>
    case Stray(_, _) =>
  }

  lemma {:induction false} StepPlaced(s: System, a: Action)
    requires Placed(s) && Counted(s) && Enabled(s, a)
    ensures Placed(Step(s, a))
  {
    forall e ensures Count(Step(s, a).added, e) == Places(Step(s, a), e) {
      StepPlacedAt(s, a, e);
    }
  }

  // ---------- the counters ----------

  ghost predicate Counted(s: System) {
    && 0 < s.q.maxlen
    && |s.q.entries| <= s.q.maxlen
    && s.q.buffered == |s.added|
    && s.q.dropped == |s.dropped|
    && s.sent + Total(s.flights, UncountedSent) == |s.delivered|
    && s.q.flushed == |s.delivered| + s.failed + Total(s.flights, UncountedFailed) + Total(s.flights, HeldCount)
    && s.q.buffered == |s.q.entries| + Total(s.flights, HeldCount) + |s.delivered|
                       + |s.dropped| + |s.cleared| + |s.loadEvicted|
  }

  /** How the totals change when flight `i` becomes `g`. */
  lemma FlightCounts(fs: seq<Flight>, i: nat, g: Flight)
    requires i < |fs|
    ensures Total(fs[i := g], UncountedSent) + UncountedSent(fs[i]) == Total(fs, UncountedSent) + UncountedSent(g)
    ensures Total(fs[i := g], UncountedFailed) + UncountedFailed(fs[i]) == Total(fs, UncountedFailed) + UncountedFailed(g)
    ensures Total(fs[i := g], HeldCount) + HeldCount(fs[i]) == Total(fs, HeldCount) + HeldCount(g)
  {
    TotalUpdate(fs, UncountedSent, i, g);
    TotalUpdate(fs, UncountedFailed, i, g);
    TotalUpdate(fs, HeldCount, i, g);
  }

  lemma DrainCounted(s: System)
    requires Counted(s)
    ensures Counted(DrainStep(s))
  {
    hide Total;
    var f := Flight(s.q.entries, Sending);
    TotalAppend(s.flights, UncountedSent, f);
    TotalAppend(s.flights, UncountedFailed, f);
    TotalAppend(s.flights, HeldCount, f);
  }

  lemma ReturnCounted(s: System, i: nat, r: SendResult)
    requires Counted(s) && InPhase(s, i, Sending)
    ensures Counted(ReturnStep(s, i, r))
  {
    FlightCounts(s.flights, i, ReturnStep(s, i, r).flights[i]);
  }

  lemma RequeueCounted(s: System, i: nat)
    requires Counted(s) && InPhase(s, i, Refused)
    ensures Counted(RequeueStep(s, i))
  {
    FlightCounts(s.flights, i, RequeueStep(s, i).flights[i]);
  }

  lemma AddCounted(s: System, entry: Entry, deleted: bool)
    requires Counted(s)
    ensures Counted(AddStep(s, entry, deleted))
  {
    var t := AddStep(s, entry, deleted);
    assert t.flights == s.flights && t.delivered == s.delivered && t.cleared == s.cleared && t.loadEvicted == s.loadEvicted;
    if AddOutcome(s.q, s.policy) == Added {
      assert |t.dropped| == |s.dropped| + |Lost(s.q)|;
      assert |t.q.entries| == |s.q.entries| + 1 - |Lost(s.q)|;
    }
  }

  lemma DeleteCounted(s: System, i: nat, deleted: bool)
    requires Counted(s)
    requires i < |s.flights| && s.flights[i].phase.Deleting? && s.flights[i].phase.keys != []
    ensures Counted(DeleteStep(s, i, deleted))
  {
    FlightCounts(s.flights, i, DeleteStep(s, i, deleted).flights[i]);
  }

  lemma SettleCounted(s: System, i: nat)
    requires Counted(s)
    requires i < |s.flights| && s.flights[i].phase.Deleting?
    ensures Counted(SettleStep(s, i))
  {
    FlightCounts(s.flights, i, SettleStep(s, i).flights[i]);
  }

  lemma StepCounted(s: System, a: Action)
    requires Counted(s) && Enabled(s, a)
    ensures Counted(Step(s, a))
  {
    match a
    case Add(e, key, deleted) => AddCounted(s, Entry(e, key), deleted);
    case Load(_, _) =>
    case Drain => DrainCounted(s);
    case Return(i, r) => ReturnCounted(s, i, r);
    case Requeue(i) => RequeueCounted(s, i);
    case Delete(i, deleted) => DeleteCounted(s, i, deleted);
    case Settle(i) => SettleCounted(s, i);
    case Expire(_) =>
    case Clear =>
    case Wipe(_) =>
    case Stray(_, _) =>
  }

  // ---------- what was delivered ----------

  /** Everything the client takes off its hands as delivered, the server has acknowledged or permanently rejected. */
  ghost predicate DeliveredSettled(s: System) {
    forall e | e in s.delivered :: e in s.acknowledged || e in s.rejected
  }

  lemma {:induction false} SettledLeaves(leaves: seq<Leaf>)
    requires AllSettled(leaves)
    ensures forall e | e in LeafItems(leaves) :: e in WithFate(leaves, Acknowledged) || e in WithFate(leaves, Rejected)
  {
    if leaves != [] {
      SettledLeaves(leaves[1..]);
      forall e | e in LeafItems(leaves)
        ensures e in WithFate(leaves, Acknowledged) || e in WithFate(leaves, Rejected)
      {
        assert leaves[0] in leaves;
        if e !in leaves[0].items {
          assert e in LeafItems(leaves[1..]);
        }
      }
    }
  }

  lemma StepSettled(s: System, a: Action)
    requires s.q.maxlen > 0 && DeliveredSettled(s) && Enabled(s, a)
    ensures DeliveredSettled(Step(s, a))
  {
    if a.Return? && a.result.Returned? && a.result.ok {
      SettledLeaves(a.result.leaves);
    }
  }

  // ---------- theorems over runs ----------

  lemma {:induction false} RunKeeps(s: System, acts: seq<Action>, t: System)
    requires Placed(s) && Counted(s) && DeliveredSettled(s) && Runs(s, acts, t)
    ensures Placed(t) && Counted(t) && DeliveredSettled(t)
    decreases |acts|
  {
    if acts != [] {
      StepCounted(s, acts[0]);
      StepPlaced(s, acts[0]);
      StepSettled(s, acts[0]);
      RunKeeps(Step(s, acts[0]), acts[1..], t);
    }
  }

  lemma {:induction false} AddedOnce(added: seq<Event>, e: Event)
    requires forall i | 0 <= i < |added| :: added[i].arrival == i
    ensures Count(added, e) == if e in added then 1 else 0
  {
    if added != [] {
      var n := |added| - 1;
      AddedOnce(added[..n], e);
      assert added == added[..n] + [added[n]];
      assert added[n] !in added[..n];
    }
  }

  /** Over every run each event ever added is in exactly one place, and an event never added is nowhere. */
  lemma EachEventInOnePlace(maxlen: nat, policy: Policy, store: map<string, string>, acts: seq<Action>, s: System, e: Event)
    requires maxlen > 0 && Runs(Initial(maxlen, policy, store), acts, s)
    ensures Places(s, e) == if e in s.added then 1 else 0
  {
    RunKeeps(Initial(maxlen, policy, store), acts, s);
    AddedOnce(s.added, e);
  }

  /**
   No event is lost: over every run, with any number of overlapping batches and any server, an event once added is
   queued, in a batch that may come back, or among those cleared or evicted, unless it has left the client as
   delivered, and then the server has acknowledged or rejected it.
   */
  lemma NoEventIsLost(maxlen: nat, policy: Policy, store: map<string, string>, acts: seq<Action>, s: System, e: Event)
    requires maxlen > 0 && Runs(Initial(maxlen, policy, store), acts, s)
    ensures e in s.added ==>
      || e in Events(s.q.entries)
      || (exists f | f in s.flights :: Holding(f) && e in Events(f.batch))
      || (e in s.delivered && (e in s.acknowledged || e in s.rejected))
      || e in s.dropped || e in s.cleared || e in s.loadEvicted
  {
    RunKeeps(Initial(maxlen, policy, store), acts, s);
    EachEventInOnePlace(maxlen, policy, store, acts, s, e);
    CountMember(Events(s.q.entries), e);
    TallyMember(s.flights, Held, e);
    CountMember(s.delivered, e);
    CountMember(s.dropped, e);
    CountMember(s.cleared, e);
    CountMember(s.loadEvicted, e);
    if Tally(s.flights, Held, e) > 0 {
      var f :| f in s.flights && e in Held(f);
      assert Holding(f);
    }
  }

  lemma {:induction false} NothingUncounted(fs: seq<Flight>)
    requires forall f | f in fs :: !f.phase.Deleting?
    ensures Total(fs, UncountedSent) == 0 && Total(fs, UncountedFailed) == 0
  {
    if fs != [] {
      NothingUncounted(fs[..|fs| - 1]);
    }
  }

  /** The counters at a moment when no batch is being settled, whatever each send returned or raised. */
  lemma CountersAgree(maxlen: nat, policy: Policy, store: map<string, string>, acts: seq<Action>, s: System)
    requires maxlen > 0 && Runs(Initial(maxlen, policy, store), acts, s)
    requires forall f | f in s.flights :: !f.phase.Deleting?
    ensures var inFlight := Total(s.flights, HeldCount);
      && s.q.buffered == |s.q.entries| + inFlight + s.sent + s.q.dropped + |s.cleared| + |s.loadEvicted|
      && s.q.flushed == s.sent + s.failed + inFlight
    ensures |s.q.entries| <= maxlen
  {
    RunKeeps(Initial(maxlen, policy, store), acts, s);
    NothingUncounted(s.flights);
    MaxlenFixed(Initial(maxlen, policy, store), acts, s);
  }

  lemma {:induction false} MaxlenFixed(s: System, acts: seq<Action>, t: System)
    requires Runs(s, acts, t)
    ensures t.q.maxlen == s.q.maxlen
    decreases |acts|
  {
    if acts != [] {
      MaxlenFixed(Step(s, acts[0]), acts[1..], t);
    }
  }

  // ---------- the overflow policy ----------

  /**
   What each policy does to one add: with room the event goes to the tail; a full queue refuses it or makes it wait,
   unless the policy is to drop, and then the oldest event goes, and no other.
   */
  lemma AddUnderPolicy(s: System, entry: Entry, deleted: bool)
    requires Counted(s)
    ensures var t := AddStep(s, entry, deleted);
      var full := |s.q.entries| == s.q.maxlen;
      if full && s.policy != Drop then t == s
      else
        && t.q.entries == (if full then s.q.entries[1..] else s.q.entries) + [entry]
        && t.added == s.added + [entry.event]
        && t.dropped == s.dropped + (if full then [s.q.entries[0].event] else [])
        && t.flights == s.flights
  {
    if Lost(s.q) != [] {
      assert Events(Lost(s.q)) == [s.q.entries[0].event];
    }
  }

  /** No add on the way drops an event. */
  ghost predicate AddsDropNothing(s: System, acts: seq<Action>)
    decreases |acts|
  {
    acts != [] ==>
      && s.q.maxlen > 0 && Enabled(s, acts[0])
      && (acts[0].Add? ==> Step(s, acts[0]).dropped == s.dropped)
      && AddsDropNothing(Step(s, acts[0]), acts[1..])
  }

  lemma StepUnderPolicy(s: System, a: Action)
    requires Counted(s) && Enabled(s, a) && s.policy != Drop
    ensures Step(s, a).policy == s.policy
    ensures !a.Requeue? ==> Step(s, a).dropped == s.dropped
  {
    if a.Add? {
      AddUnderPolicy(s, Entry(a.event, a.key), a.deleted);
    }
  }

  lemma {:induction false} RunUnderPolicy(s: System, acts: seq<Action>, t: System)
    requires Counted(s) && s.policy != Drop && Runs(s, acts, t)
    ensures AddsDropNothing(s, acts)
    ensures (forall a | a in acts :: !a.Requeue?) ==> t.dropped == s.dropped
    decreases |acts|
  {
    if acts != [] {
      StepUnderPolicy(s, acts[0]);
      StepCounted(s, acts[0]);
      hide Step;
      hide Counted;
      RunUnderPolicy(Step(s, acts[0]), acts[1..], t);
    }
  }

  /**
   Under block and raise no add ever drops an event, over any run: what is dropped was pushed out at the tail by a
   batch that came back.
   */
  lemma OnlyDropPolicyDrops(maxlen: nat, policy: Policy, store: map<string, string>, acts: seq<Action>, s: System)
    requires maxlen > 0 && policy != Drop && Runs(Initial(maxlen, policy, store), acts, s)
    ensures AddsDropNothing(Initial(maxlen, policy, store), acts)
    ensures (forall a | a in acts :: !a.Requeue?) ==> s.dropped == [] && s.q.dropped == 0
  {
    RunUnderPolicy(Initial(maxlen, policy, store), acts, s);
    RunKeeps(Initial(maxlen, policy, store), acts, s);
  }

  // ---------- addresses of live objects ----------

  function Ids(entries: seq<Entry>): (r: seq<int>)
    ensures |r| == |entries| && forall i | 0 <= i < |r| :: r[i] == entries[i].event.id
  {
    seq(|entries|, i requires 0 <= i < |entries| => entries[i].event.id)
  }

  function HeldIds(f: Flight): seq<int> {
    if Holding(f) then Ids(f.batch) else []
  }

  /** How many objects that are, or may come back, in the queue live at this address. */
  function Residents(s: System, id: int): nat {
    Count(Ids(s.q.entries), id) + Tally(s.flights, HeldIds, id)
  }

  ghost predicate OneResidentEach(s: System) {
    forall id :: Residents(s, id) <= 1
  }

  lemma FreshIsNoResident(entries: seq<Entry>, id: int)
    requires FreshId(id, Events(entries))
    ensures id !in Ids(entries)
  {
    forall i | 0 <= i < |entries| ensures Ids(entries)[i] != id {
      assert Events(entries)[i] in Events(entries);
    }
  }

  lemma NobodyHome(s: System, e: Event)
    requires NewEvent(s, e)
    ensures Residents(s, e.id) == 0
  {
    CountMember(Ids(s.q.entries), e.id);
    FreshIsNoResident(s.q.entries, e.id);
    TallyMember(s.flights, HeldIds, e.id);
    forall f | f in s.flights ensures e.id !in HeldIds(f) {
      if Holding(f) {
        FreshIsNoResident(f.batch, e.id);
      }
    }
  }

  lemma AppendResidents(q: Queue, entry: Entry, id: int)
    requires q.maxlen > 0
    ensures Count(Ids(Append(q, entry).entries), id) <= Count(Ids(q.entries), id) + if entry.event.id == id then 1 else 0
  {
    var kept := if IsFull(q) && q.entries != [] then q.entries[1..] else q.entries;
    assert Ids(kept + [entry]) == Ids(kept) + [entry.event.id];
    CountAppend(Ids(kept), [entry.event.id], id);
    if IsFull(q) && q.entries != [] {
      assert Ids(q.entries) == [q.entries[0].event.id] + Ids(kept);
      CountAppend([q.entries[0].event.id], Ids(kept), id);
    }
  }

  lemma IdsAppend(a: seq<Entry>, b: seq<Entry>)
    ensures Ids(a + b) == Ids(a) + Ids(b)
  {
  }

  /** A flight gives its batch back, and what does not fit is cut off. */
  lemma GivenBackResidents(s: System, i: nat, t: System, cut: seq<Entry>, id: int)
    requires i < |s.flights| && |t.flights| == |s.flights| && t.flights == s.flights[i := t.flights[i]]
    requires Holding(s.flights[i]) && !Holding(t.flights[i])
    requires t.q.entries + cut == s.flights[i].batch + s.q.entries
    ensures Residents(t, id) <= Residents(s, id)
  {
    hide Tally;
    assert Count<int>([], id) == 0;
    hide Count;
    IdsAppend(t.q.entries, cut);
    IdsAppend(s.flights[i].batch, s.q.entries);
    hide Ids;
    CountAppend(Ids(t.q.entries), Ids(cut), id);
    CountAppend(Ids(s.flights[i].batch), Ids(s.q.entries), id);
    TallyUpdate(s.flights, HeldIds, i, t.flights[i], id);
  }

  lemma RequeueResidents(s: System, i: nat, id: int)
    requires InPhase(s, i, Refused)
    ensures Residents(RequeueStep(s, i), id) <= Residents(s, id)
  {
    hide Residents;
    var t := RequeueStep(s, i);
    assert t.flights == s.flights[i := t.flights[i]];
    GivenBackResidents(s, i, t, Discarded(s.q, s.flights[i].batch), id);
  }

  lemma DeletingResidents(s: System, i: nat, t: System, id: int)
    requires i < |s.flights| && s.flights[i].phase.Deleting?
    requires |t.flights| == |s.flights| && t.flights == s.flights[i := t.flights[i]] && !Holding(t.flights[i])
    requires t.q == s.q
    ensures Residents(t, id) == Residents(s, id)
  {
    TallyUpdate(s.flights, HeldIds, i, t.flights[i], id);
  }

  lemma ReturnResidents(s: System, i: nat, r: SendResult, id: int)
    requires InPhase(s, i, Sending)
    ensures Residents(ReturnStep(s, i, r), id) <= Residents(s, id)
  {
    TallyUpdate(s.flights, HeldIds, i, ReturnStep(s, i, r).flights[i], id);
  }

  lemma DrainResidents(s: System, id: int)
    ensures Residents(DrainStep(s), id) == Residents(s, id)
  {
    TallyAppend(s.flights, HeldIds, Flight(s.q.entries, Sending), id);
  }

  lemma AppendedResidents(s: System, entry: Entry, t: System, id: int)
    requires s.q.maxlen > 0
    requires t.flights == s.flights && t.q.entries == Append(s.q, entry).entries
    ensures Residents(t, id) <= Residents(s, id) + if entry.event.id == id then 1 else 0
  {
    hide Tally;
    hide Count;
    AppendResidents(s.q, entry, id);
  }

  lemma ClearResidents(s: System, id: int)
    ensures Residents(ClearStep(s), id) <= Residents(s, id)
  {
  }

  lemma SameResidents(s: System, t: System, id: int)
    requires t.flights == s.flights && t.q == s.q
    ensures Residents(t, id) == Residents(s, id)
  {
  }

  lemma StepResidents(s: System, a: Action, id: int)
    requires s.q.maxlen > 0 && Enabled(s, a)
    ensures Residents(Step(s, a), id) <= Residents(s, id) +
      if (a.Add? || a.Load?) && a.event.id == id then 1 else 0
  {
    hide Residents;
    match a
    case Add(e, key, deleted) =>
      if AddOutcome(s.q, s.policy) == Added {
        AppendedResidents(s, Entry(e, key), AddStep(s, Entry(e, key), deleted), id);
      }
    case Load(e, key) => AppendedResidents(s, Entry(e, key), LoadStep(s, Entry(e, key)), id);
    case Drain => DrainResidents(s, id);
    case Return(i, r) => ReturnResidents(s, i, r, id);
    case Requeue(i) => RequeueResidents(s, i, id);
    case Delete(i, deleted) => DeletingResidents(s, i, DeleteStep(s, i, deleted), id);
    case Settle(i) => DeletingResidents(s, i, SettleStep(s, i), id);
    case Clear => ClearResidents(s, id);
    case _ => SameResidents(s, Step(s, a), id);
  }

  lemma {:induction false} RunOneResidentEach(s: System, acts: seq<Action>, t: System)
    requires OneResidentEach(s) && Runs(s, acts, t)
    ensures OneResidentEach(t)
    decreases |acts|
  {
    if acts != [] {
      var a := acts[0];
      forall id ensures Residents(Step(s, a), id) <= 1 {
        StepResidents(s, a, id);
        if a.Add? || a.Load? {
          NobodyHome(s, a.event);
        }
      }
      RunOneResidentEach(Step(s, a), acts[1..], t);
    }
  }

  lemma {:induction false} CountTwice(xs: seq<int>, i: nat, j: nat)
    requires i < j < |xs| && xs[i] == xs[j]
    ensures Count(xs, xs[i]) >= 2
  {
    var n := |xs| - 1;
    if j < n {
      CountTwice(xs[..n], i, j);
    } else {
      assert xs[..n][i] == xs[i];
      CountMember(xs[..n], xs[i]);
    }
  }

  lemma DistinctByCount(ids: seq<int>)
    requires forall id :: Count(ids, id) <= 1
    ensures forall i, j | 0 <= i < j < |ids| :: ids[i] != ids[j]
  {
    forall i, j | 0 <= i < j < |ids| ensures ids[i] != ids[j] {
      if ids[i] == ids[j] {
        CountTwice(ids, i, j);
      }
    }
  }

  lemma HeldResidents(s: System, i: nat, id: int)
    requires i < |s.flights| && Holding(s.flights[i])
    ensures Count(Ids(s.flights[i].batch + s.q.entries), id) <= Residents(s, id)
  {
    var batch := s.flights[i].batch;
    assert Ids(batch + s.q.entries) == Ids(batch) + Ids(s.q.entries);
    CountAppend(Ids(batch), Ids(s.q.entries), id);
    TallyUpdate(s.flights, HeldIds, i, Flight([], Done), id);
  }

  lemma HeldDistinct(s: System, i: nat)
    requires OneResidentEach(s)
    requires i < |s.flights| && Holding(s.flights[i])
    ensures DistinctIds(Events(s.flights[i].batch + s.q.entries))
  {
    var all := s.flights[i].batch + s.q.entries;
    var ids := Ids(all);
    forall id ensures Count(ids, id) <= 1 {
      HeldResidents(s, i, id);
    }
    DistinctByCount(ids);
    forall x, y | 0 <= x < y < |all| ensures Events(all)[x].id != Events(all)[y].id {
      assert ids[x] != ids[y];
    }
  }

  /**
   Although the addresses of dead objects are reused, in every reachable state a batch that may be put back and
   the queue it would return to hold objects at pairwise distinct addresses: the identity map cannot confuse them.
   */
  lemma RequeueFindsDistinctObjects(maxlen: nat, policy: Policy, store: map<string, string>, acts: seq<Action>, s: System, i: nat)
    requires maxlen > 0 && Runs(Initial(maxlen, policy, store), acts, s)
    requires i < |s.flights| && Holding(s.flights[i])
    ensures DistinctIds(Events(s.flights[i].batch) + Events(s.q.entries))
  {
    RunOneResidentEach(Initial(maxlen, policy, store), acts, s);
    HeldDistinct(s, i);
    EventsAppend(s.flights[i].batch, s.q.entries);
  }
}
