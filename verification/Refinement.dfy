/** The steps of the handshake are the calls of buffer, transport and client. */
module Refinement {
  import opened Common
  import opened BoundedQueue
  import opened Handshake
  import EB = EventBuffering
  import Client
  import FlushGate
  import Delivery
  import Sending

  /** The system's queue, store and counters are those of the client's books. */
  predicate Agrees(s: System, b: Client.Books) {
    s.q.maxlen > 0 && s.q == b.q && s.store == b.records && s.sent == b.sent && s.failed == b.failed
  }

  // ---------- deleting records ----------

  /** Confirming deletes exactly the real keys whose delete call works. */
  lemma {:induction false} DeletedRecords(records: map<string, string>, keys: seq<string>, failing: set<string>)
    ensures EB.Deleted(records, keys, failing) == records - set k | k in keys && k != "" && k !in failing
  {
    if keys != [] {
      var n := |keys| - 1;
      DeletedRecords(records, keys[..n], failing);
      assert keys == keys[..n] + [keys[n]];
    }
  }

  /** The delete calls of one confirmation, in order. */
  function DeleteCalls(i: nat, keys: seq<string>, failing: set<string>): seq<Action> {
    if keys == [] then [] else [Delete(i, keys[0] !in failing)] + DeleteCalls(i, keys[1..], failing)
  }

  lemma OneDelete(s: System, i: nat, failing: set<string>)
    requires i < |s.flights| && s.flights[i].phase.Deleting? && s.flights[i].phase.keys != []
    ensures var phase := s.flights[i].phase;
      var t := DeleteStep(s, i, phase.keys[0] !in failing);
      && OnlyRecords(s, t) && |t.flights| == |s.flights|
      && t.flights[i] == s.flights[i].(phase := Deleting(phase.keys[1..], phase.accepted))
      && (t.store - set k | k in phase.keys[1..] && k != "" && k !in failing)
         == (s.store - set k | k in phase.keys && k != "" && k !in failing)
  {
    var keys := s.flights[i].phase.keys;
    assert keys == [keys[0]] + keys[1..];
  }

  /** Queue and counters are not touched. */
  predicate OnlyRecords(s: System, t: System) {
    t.q == s.q && t.sent == s.sent && t.failed == s.failed
  }

  /** A confirmation on the store is a run of `Delete` steps that leaves the queue and the counters alone. */
  lemma {:induction false} ConfirmIsDeleteSteps(s: System, i: nat, failing: set<string>) returns (t: System)
    requires s.q.maxlen > 0 && i < |s.flights| && s.flights[i].phase.Deleting?
    ensures Runs(s, DeleteCalls(i, s.flights[i].phase.keys, failing), t)
    ensures OnlyRecords(s, t) && t.store == EB.Deleted(s.store, s.flights[i].phase.keys, failing)
    ensures |t.flights| == |s.flights| && t.flights[i] == s.flights[i].(phase := Deleting([], s.flights[i].phase.accepted))
    decreases |s.flights[i].phase.keys|
  {
    hide EB.Deleted;
    var keys := s.flights[i].phase.keys;
    DeletedRecords(s.store, keys, failing);
    if keys == [] {
      t := s;
    } else {
      var s1 := DeleteStep(s, i, keys[0] !in failing);
      OneDelete(s, i, failing);
      hide DeleteStep;
      t := ConfirmIsDeleteSteps(s1, i, failing);
      DeletedRecords(s1.store, keys[1..], failing);
      StepThenRun(s, Delete(i, keys[0] !in failing), DeleteCalls(i, keys[1..], failing), t);
    }
  }

  /** Skipping the empty keys first makes no difference. */
  lemma {:induction false} EmptyKeysAreSkipped(entries: seq<Entry>, k: string)
    ensures k in RealKeys(entries) <==> k in Keys(entries) && k != ""
  {
    if entries != [] {
      var n := |entries| - 1;
      EmptyKeysAreSkipped(entries[..n], k);
      LastKey(entries);
      hide Keys;
      hide RealKeys;
    }
  }

  lemma LastKey(entries: seq<Entry>)
    requires entries != []
    ensures var n := |entries| - 1;
      var last := entries[n].key;
      && Keys(entries) == Keys(entries[..n]) + [last]
      && RealKeys(entries) == RealKeys(entries[..n]) + if last != "" then [last] else []
  {
    assert RealKeys(entries) == RealKeys(entries[..|entries| - 1])
      + if entries[|entries| - 1].key != "" then [entries[|entries| - 1].key] else [];
    hide RealKeys;
    assert entries == entries[..|entries| - 1] + [entries[|entries| - 1]];
    assert Keys([entries[|entries| - 1]]) == [entries[|entries| - 1].key];
    hide Keys;
    EventsAppend(entries[..|entries| - 1], [entries[|entries| - 1]]);
  }

  lemma DeletedRealKeys(records: map<string, string>, entries: seq<Entry>, failing: set<string>)
    ensures EB.Deleted(records, RealKeys(entries), failing) == EB.Deleted(records, Keys(entries), failing)
  {
    forall k ensures k in RealKeys(entries) <==> k in Keys(entries) && k != "" {
      EmptyKeysAreSkipped(entries, k);
    }
    DeletedRecords(records, RealKeys(entries), failing);
    DeletedRecords(records, Keys(entries), failing);
  }

  // ---------- adding ----------

  predicate Unconfirmed(s: System, a: EB.Arrival) {
    AddOutcome(s.q, s.policy) == Added && a.write == EB.Unconfirmed
  }

  /** One round of an add: a step, and another one for a record that was stored by a write that raised. */
  function ArrivalActions(s: System, a: EB.Arrival): seq<Action> {
    var evicted := EB.EvictedKeys(s.q, s.policy);
    [Add(a.event, EB.KeyGiven(a.key, a.write), evicted == [] || evicted[0] !in a.failing)]
    + if Unconfirmed(s, a) then [Stray(a.key, a.event.payload)] else []
  }

  function AfterArrival(s: System, a: EB.Arrival): System
    requires s.q.maxlen > 0
  {
    var evicted := EB.EvictedKeys(s.q, s.policy);
    var t := AddStep(s, Entry(a.event, EB.KeyGiven(a.key, a.write)), evicted == [] || evicted[0] !in a.failing);
    if Unconfirmed(s, a) then t.(store := t.store[a.key := a.event.payload], untracked := t.untracked + {a.key}) else t
  }

  /** A new object with the next arrival number, and a key nobody has used. */
  predicate Newcomer(s: System, a: EB.Arrival) {
    NewEvent(s, a.event) && a.key != "" && UnusedKey(s, a.key) && a.key !in Keys(s.q.entries)
  }

  /**
   One round of `add_event` is a run of the system: its steps are enabled, and they leave queue, store and counters as
   the buffer does, under every policy and however eviction and write end.
   */
  lemma AddRoundIsRun(s: System, b: Client.Books, a: EB.Arrival)
    requires Agrees(s, b) && Newcomer(s, a)
    ensures var t := AfterArrival(s, a);
      && Runs(s, ArrivalActions(s, a), t)
      && Agrees(t, Client.Arrive(b, s.policy, a))
      && t.flights == s.flights && t.policy == s.policy
  {
    var evicted := EB.EvictedKeys(s.q, s.policy);
    DeletedRecords(s.store, evicted, a.failing);
    var first := Add(a.event, EB.KeyGiven(a.key, a.write), evicted == [] || evicted[0] !in a.failing);
    var m := AddStep(s, Entry(a.event, EB.KeyGiven(a.key, a.write)), evicted == [] || evicted[0] !in a.failing);
    if Unconfirmed(s, a) {
      assert UnusedKey(m, a.key);
      StepThenRun(m, Stray(a.key, a.event.payload), [], AfterArrival(s, a));
      StepThenRun(s, first, [Stray(a.key, a.event.payload)], AfterArrival(s, a));
      assert ArrivalActions(s, a) == [first] + [Stray(a.key, a.event.payload)];
    } else {
      StepThenRun(s, first, [], m);
      assert ArrivalActions(s, a) == [first] + [];
    }
  }

  ghost predicate NewArrivals(s: System, attached: bool, arrivals: seq<EB.Arrival>)
    requires s.q.maxlen > 0
    decreases |arrivals|
  {
    arrivals != [] ==>
      var a := EB.Reaching(attached, arrivals[0]);
      Newcomer(s, a) && NewArrivals(AfterArrival(s, a), attached, arrivals[1..])
  }

  function AllArrivalActions(s: System, attached: bool, arrivals: seq<EB.Arrival>): seq<Action>
    requires s.q.maxlen > 0
    decreases |arrivals|
  {
    if arrivals == [] then []
    else
      var a := EB.Reaching(attached, arrivals[0]);
      ArrivalActions(s, a) + AllArrivalActions(AfterArrival(s, a), attached, arrivals[1..])
  }

  lemma {:induction false} ArrivalsAreRun(s: System, b: Client.Books, attached: bool, arrivals: seq<EB.Arrival>)
    returns (t: System)
    requires Agrees(s, b) && NewArrivals(s, attached, arrivals)
    ensures Runs(s, AllArrivalActions(s, attached, arrivals), t)
    ensures Agrees(t, Client.ArriveAll(b, s.policy, attached, arrivals)) && t.flights == s.flights
    decreases |arrivals|
  {
    if arrivals == [] {
      t := s;
    } else {
      var a := EB.Reaching(attached, arrivals[0]);
      AddRoundIsRun(s, b, a);
      var m := AfterArrival(s, a);
      hide AfterArrival;
      hide ArrivalActions;
      t := ArrivalsAreRun(m, Client.Arrive(b, s.policy, a), attached, arrivals[1..]);
      RunThenRun(s, ArrivalActions(s, a), m, AllArrivalActions(m, attached, arrivals[1..]), t);
    }
  }

  /** What the class demands of arriving events while a batch is out, the system grants. */
  lemma {:induction false} NewcomersAreFresh(s: System, b: Client.Books, i: nat, attached: bool, arrivals: seq<EB.Arrival>)
    requires Agrees(s, b) && NewArrivals(s, attached, arrivals) && i < |s.flights| && Alive(s.flights[i])
    ensures Client.FreshArrivals(b, Events(s.flights[i].batch), s.policy, attached, arrivals)
    decreases |arrivals|
  {
    if arrivals != [] {
      var a := EB.Reaching(attached, arrivals[0]);
      AddRoundIsRun(s, b, a);
      assert s.flights[i] in s.flights;
      hide AfterArrival;
      hide Agrees;
      NewcomersAreFresh(AfterArrival(s, a), Client.Arrive(b, s.policy, a), i, attached, arrivals[1..]);
    }
  }

  // ---------- loading and clearing ----------

  /** Reading one record back at startup is one step, which leaves the store alone. */
  lemma LoadIsStep(s: System, b: Client.Books, entry: Entry)
    requires Agrees(s, b)
    requires NewEvent(s, entry.event) && entry.key != "" && entry.key in s.untracked
    requires entry.key in s.store && s.store[entry.key] == entry.event.payload
    ensures Enabled(s, Load(entry.event, entry.key))
    ensures Agrees(Step(s, Load(entry.event, entry.key)), b.(q := BoundedQueue.Load(b.q, Usable(entry))))
  {
  }

  function Wipes(listing: seq<string>): seq<Action> {
    if listing == [] then [] else [Wipe(listing[0])] + Wipes(listing[1..])
  }

  lemma {:induction false} WipesAreRun(s: System, listing: seq<string>) returns (t: System)
    requires s.q.maxlen > 0
    ensures Runs(s, Wipes(listing), t)
    ensures OnlyRecords(s, t) && t.store == s.store - (set k | k in listing)
    decreases |listing|
  {
    if listing == [] {
      t := s;
    } else {
      var m := s.(store := s.store - {listing[0]});
      t := WipesAreRun(m, listing[1..]);
      assert listing == [listing[0]] + listing[1..];
      StepThenRun(s, Wipe(listing[0]), Wipes(listing[1..]), t);
    }
  }

  /** Clearing is one step under the lock and then one for each record deleted, between which anything may happen. */
  lemma ClearIsRun(s: System, b: Client.Books, listing: seq<string>) returns (t: System)
    requires Agrees(s, b)
    ensures Runs(s, [Clear] + Wipes(listing), t)
    ensures Agrees(t, b.(q := BoundedQueue.Clear(b.q), records := b.records - (set k | k in listing)))
  {
    t := WipesAreRun(ClearStep(s), listing);
    StepThenRun(s, Clear, Wipes(listing), t);
  }

  // ---------- a flush ----------

  function OutcomeOf(r: SendResult): Client.SendOutcome {
    if r.Raised? then Client.Raised else Client.Returned(r.ok)
  }

  predicate Succeeds(r: SendResult) {
    r.Returned? && r.ok
  }

  /** The steps of settling flight `i`. */
  function FinishActions(s: System, i: nat, r: SendResult, failing: set<string>): seq<Action>
    requires i < |s.flights|
  {
    var batch := s.flights[i].batch;
    if Succeeds(r) then [Return(i, r)] + (DeleteCalls(i, RealKeys(batch), failing) + [Settle(i)])
    else
      [Return(i, r)] + ([Requeue(i)]
        + (DeleteCalls(i, Reversed(RealKeys(Discarded(s.q, batch))), failing) + [Settle(i)]))
  }

  lemma DeletingIsRun(s: System, i: nat, failing: set<string>) returns (t: System)
    requires s.q.maxlen > 0 && i < |s.flights| && s.flights[i].phase.Deleting?
    ensures var phase := s.flights[i].phase;
      var n := |s.flights[i].batch|;
      && Runs(s, DeleteCalls(i, phase.keys, failing) + [Settle(i)], t)
      && t.q == s.q && t.store == EB.Deleted(s.store, phase.keys, failing)
      && t.sent == s.sent + (if phase.accepted then n else 0)
      && t.failed == s.failed + (if phase.accepted then 0 else n)
      && |t.flights| == |s.flights| && t.flights[i].phase == Done
  {
    var m := ConfirmIsDeleteSteps(s, i, failing);
    t := SettleStep(m, i);
    StepThenRun(m, Settle(i), [], t);
    RunThenRun(s, DeleteCalls(i, s.flights[i].phase.keys, failing), m, [Settle(i)], t);
  }

  lemma AcceptIsRun(s: System, b: Client.Books, i: nat, r: SendResult, failing: set<string>) returns (t: System)
    requires Agrees(s, b) && InPhase(s, i, Sending) && Honest(Events(s.flights[i].batch), r) && Succeeds(r)
    ensures Runs(s, FinishActions(s, i, r, failing), t)
    ensures Agrees(t, Client.Accept(b, s.flights[i].batch, failing))
    ensures |t.flights| == |s.flights| && t.flights[i].phase == Done
  {
    hide Honest;
    hide Runs;
    hide EB.Deleted;
    var batch, m := s.flights[i].batch, ReturnStep(s, i, r);
    assert Step(s, Return(i, r)) == m && Enabled(s, Return(i, r));
    assert OnlyRecords(s, m) && m.store == s.store;
    assert |m.flights| == |s.flights| && m.flights[i] == Flight(batch, Deleting(RealKeys(batch), true));
    hide ReturnStep;
    hide Step;
    hide Enabled;
    DeletedRealKeys(s.store, batch, failing);
    t := DeletingIsRun(m, i, failing);
    var rest := DeleteCalls(i, RealKeys(batch), failing) + [Settle(i)];
    StepThenRun(s, Return(i, r), rest, t);
  }

  lemma PutBackIsRun(s: System, b: Client.Books, i: nat, r: SendResult, flushInterval: real, now: real, failing: set<string>)
    returns (t: System)
    requires Agrees(s, b) && InPhase(s, i, Sending) && Honest(Events(s.flights[i].batch), r) && !Succeeds(r)
    ensures Runs(s, FinishActions(s, i, r, failing), t)
    ensures Agrees(t, Client.PutBack(b, s.flights[i].batch, flushInterval, now, failing))
    ensures |t.flights| == |s.flights| && t.flights[i].phase == Done
  {
    hide Honest;
    hide Runs;
    hide EB.Deleted;
    hide FlushGate.AfterFailure;
    hide BoundedQueue.Requeue;
    hide Discarded;
    var batch, m := s.flights[i].batch, ReturnStep(s, i, r);
    var m', keys := RequeueStep(m, i), Reversed(RealKeys(Discarded(s.q, batch)));
    RequeueKeepsBound(m.q, batch);
    t := DeletingIsRun(m', i, failing);
    var rest := DeleteCalls(i, keys, failing) + [Settle(i)];
    StepThenRun(m, Requeue(i), rest, t);
    StepThenRun(s, Return(i, r), [Requeue(i)] + rest, t);
  }

  lemma RequeueKeepsBound(q: Queue, batch: seq<Entry>)
    ensures BoundedQueue.Requeue(q, batch).maxlen == q.maxlen
  {
  }

  /**
   Settling a flush is a run of the system from any state in which its batch is out, whatever other flushes and adds
   have done since the drain, and for True, False and raising sends alike.
   */
  lemma {:induction false} FinishIsRun(s: System, b: Client.Books, i: nat, r: SendResult, flushInterval: real, now: real, failing: set<string>)
    returns (t: System)
    requires Agrees(s, b) && InPhase(s, i, Sending) && Honest(Events(s.flights[i].batch), r)
    ensures Runs(s, FinishActions(s, i, r, failing), t)
    ensures Agrees(t, Client.Finish(b, s.flights[i].batch, OutcomeOf(r), flushInterval, now, failing))
    ensures |t.flights| == |s.flights| && t.flights[i].phase == Done
  {
    hide Client.Accept;
    hide Client.PutBack;
    hide FinishActions;
    hide Agrees;
    hide Honest;
    if Succeeds(r) {
      t := AcceptIsRun(s, b, i, r, failing);
    } else {
      t := PutBackIsRun(s, b, i, r, flushInterval, now, failing);
    }
  }

  /**
   A whole flush of the client, with other coroutines adding events while the send is under way, is a run of the
   system: drain, adds, return, requeue if the send failed, deletions, settlement.
   */
  lemma {:induction false} FlushIsRun(s: System, b: Client.Books, start: real, attached: bool, arrivals: seq<EB.Arrival>, r: SendResult,
                   flushInterval: real, now: real, failing: set<string>)
    returns (m: System, t: System)
    requires Agrees(s, b) && FlushGate.IsOpen(b.gate, start) && s.q.entries != []
    requires NewArrivals(DrainStep(s), attached, arrivals)
    requires Honest(Events(s.q.entries), r)
    ensures m.flights == s.flights + [Flight(s.q.entries, Sending)]
    ensures Runs(s, [Drain] + (AllArrivalActions(DrainStep(s), attached, arrivals)
                               + FinishActions(m, |s.flights|, r, failing)), t)
    ensures var (b1, batch) := Client.Begin(b, start);
      Agrees(t, Client.Finish(Client.ArriveAll(b1, s.policy, attached, arrivals), batch, OutcomeOf(r), flushInterval, now, failing))
    ensures |t.flights| == |s.flights| + 1 && t.flights[|s.flights|].phase == Done
  {
    hide Client.Finish;
    hide FinishActions;
    var s1, b1 := DrainStep(s), Client.Begin(b, start).0;
    m := ArrivalsAreRun(s1, b1, attached, arrivals);
    t := FinishIsRun(m, Client.ArriveAll(b1, s.policy, attached, arrivals), |s.flights|, r, flushInterval, now, failing);
    var adds := AllArrivalActions(s1, attached, arrivals);
    RunThenRun(s1, adds, m, FinishActions(m, |s.flights|, r, failing), t);
    StepThenRun(s, Drain, adds + FinishActions(m, |s.flights|, r, failing), t);
  }

  // ---------- a send ----------

  /** Whatever the server answers, what the transport reports is a result the handshake allows. */
  lemma SendIsHonest(w: Sending.World, c: Sending.Config, wire: Sending.Wire, batch: seq<Entry>)
    ensures var (t, ok) := Sending.SendEvents(w, c, wire, Events(batch));
      wire.leaves <= t.leaves && Honest(Events(batch), Returned(ok, Delivery.NewLeaves(wire, t)))
  {
    hide Sending.SendEvents;
    Delivery.SendCoversBatch(w, c, wire, Events(batch));
  }

  /**
   The result is that of a send whose POSTs are all in `trace`; an interrupted send has at least made the POSTs that
   decided the leaves it is credited with.
   */
  ghost predicate FromSender(batch: seq<Event>, r: SendResult, trace: seq<Sending.Post>) {
    match r
    case Raised(leaves) => Delivery.AllDecided(trace, leaves)
    case Returned(ok, leaves) => exists w: Sending.World, c: Sending.Config, wire: Sending.Wire ::
      var (t, verdict) := Sending.SendEvents(w, c, wire, batch);
      && wire.leaves <= t.leaves && wire.posts <= t.posts
      && ok == verdict && leaves == Delivery.NewLeaves(wire, t)
      && forall p | p in Delivery.NewPosts(wire, t) :: p in trace
  }

  /** Every result in the run is the sender's. */
  ghost predicate SendsAreReal(s: System, acts: seq<Action>, trace: seq<Sending.Post>)
    decreases |acts|
  {
    acts != [] ==>
      && s.q.maxlen > 0 && Enabled(s, acts[0])
      && (acts[0].Return? ==> FromSender(Events(s.flights[acts[0].flight].batch), acts[0].result, trace))
      && SendsAreReal(Step(s, acts[0]), acts[1..], trace)
  }

  ghost predicate AcceptedIn(trace: seq<Sending.Post>, e: Event) {
    exists p | p in trace :: e in p.batch && Sending.IsAcceptance(p.response)
  }

  ghost predicate RejectedIn(trace: seq<Sending.Post>, e: Event) {
    exists p | p in trace :: e in p.batch && Delivery.Rejects(p.response, |p.batch|)
  }

  /** What is recorded as acknowledged or rejected, the server has accepted or permanently rejected. */
  ghost predicate Answered(s: System, trace: seq<Sending.Post>) {
    && (forall e | e in s.acknowledged :: AcceptedIn(trace, e))
    && (forall e | e in s.rejected :: RejectedIn(trace, e))
  }

  lemma ResultIsDecided(batch: seq<Event>, r: SendResult, trace: seq<Sending.Post>)
    requires FromSender(batch, r, trace)
    ensures Delivery.AllDecided(trace, r.leaves)
  {
    hide Sending.SendEvents;
    hide Delivery.Decided;
    if r.Returned? {
      var w: Sending.World, c: Sending.Config, wire: Sending.Wire :|
        var (t, verdict) := Sending.SendEvents(w, c, wire, batch);
        && wire.leaves <= t.leaves && wire.posts <= t.posts
        && r.ok == verdict && r.leaves == Delivery.NewLeaves(wire, t)
        && forall p | p in Delivery.NewPosts(wire, t) :: p in trace;
      Delivery.LeavesAreDecidedByServer(w, c, wire, batch);
      var t := Sending.SendEvents(w, c, wire, batch).0;
      Delivery.MorePosts(Delivery.NewPosts(wire, t), trace, r.leaves);
    }
  }

  lemma LabelsAreAnswered(leaves: seq<Leaf>, trace: seq<Sending.Post>)
    requires Delivery.AllDecided(trace, leaves)
    ensures forall e | e in WithFate(leaves, Acknowledged) :: AcceptedIn(trace, e)
    ensures forall e | e in WithFate(leaves, Rejected) :: RejectedIn(trace, e)
  {
    hide Sending.IsAcceptance;
    hide Delivery.Rejects;
    forall e | e in WithFate(leaves, Acknowledged) ensures AcceptedIn(trace, e) {
      var l :| l in leaves && e in l.items && l.fate == Acknowledged;
      assert Delivery.Decided(trace, l);
    }
    forall e | e in WithFate(leaves, Rejected) ensures RejectedIn(trace, e) {
      var l :| l in leaves && e in l.items && l.fate == Rejected;
      assert Delivery.Decided(trace, l);
    }
  }

  lemma StepAnswered(s: System, a: Action, trace: seq<Sending.Post>)
    requires s.q.maxlen > 0 && Enabled(s, a) && Answered(s, trace)
    requires a.Return? ==> FromSender(Events(s.flights[a.flight].batch), a.result, trace)
    ensures Answered(Step(s, a), trace)
  {
    hide FromSender;
    hide AcceptedIn;
    hide RejectedIn;
    if a.Return? {
      ResultIsDecided(Events(s.flights[a.flight].batch), a.result, trace);
      LabelsAreAnswered(a.result.leaves, trace);
    }
  }

  lemma {:induction false} RunAnswered(s: System, acts: seq<Action>, t: System, trace: seq<Sending.Post>)
    requires Runs(s, acts, t) && SendsAreReal(s, acts, trace) && Answered(s, trace)
    ensures Answered(t, trace)
    decreases |acts|
  {
    hide Answered;
    hide FromSender;
    hide Step;
    if acts != [] {
      StepAnswered(s, acts[0], trace);
      RunAnswered(Step(s, acts[0]), acts[1..], t, trace);
    }
  }

  /**
   At least once, end to end: over every run whose results are the sender's, with any number of overlapping flushes and
   any server, an event leaves the client as delivered only if some POST that carried it was accepted, or was rejected
   for good.
   */
  lemma DeliveredWasAnswered(maxlen: nat, policy: Policy, store: map<string, string>, acts: seq<Action>, s: System,
                             trace: seq<Sending.Post>, e: Event)
    requires maxlen > 0 && Runs(Initial(maxlen, policy, store), acts, s)
    requires SendsAreReal(Initial(maxlen, policy, store), acts, trace)
    requires e in s.delivered
    ensures AcceptedIn(trace, e) || RejectedIn(trace, e)
  {
    hide AcceptedIn;
    hide RejectedIn;
    RunAnswered(Initial(maxlen, policy, store), acts, s, trace);
    RunKeeps(Initial(maxlen, policy, store), acts, s);
  }
}
