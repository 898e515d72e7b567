/** Arrival order: exactly which runs keep it, whether flushes overlap or not. */
module Ordering {
  import opened Common
  import opened BoundedQueue
  import opened Handshake

  ghost predicate Ascending(entries: seq<Entry>) {
    forall i, j | 0 <= i < j < |entries| :: entries[i].event.arrival < entries[j].event.arrival
  }

  function HeldPart(f: Flight): seq<Entry> {
    if Holding(f) then f.batch else []
  }

  /** Every batch that may come back, in the order in which they were drained. */
  function HeldEntries(fs: seq<Flight>): seq<Entry> {
    if fs == [] then [] else HeldEntries(fs[..|fs| - 1]) + HeldPart(fs[|fs| - 1])
  }

  /** What is in flight, in drain order, goes before what is queued. */
  ghost predicate InOrder(s: System) {
    Ascending(HeldEntries(s.flights) + s.q.entries)
  }

  /** Everything held or queued arrived before the next event will, and no flight is empty. */
  ghost predicate Dated(s: System) {
    && (forall x | x in HeldEntries(s.flights) + s.q.entries :: x.event.arrival < |s.added|)
    && (forall f | f in s.flights :: f.batch != [])
  }

  // ---------- held batches ----------

  lemma HeldSnoc(fs: seq<Flight>, f: Flight)
    ensures HeldEntries(fs + [f]) == HeldEntries(fs) + HeldPart(f)
  {
    assert (fs + [f])[..|fs|] == fs;
  }

  lemma {:induction false} HeldAppend(fs: seq<Flight>, gs: seq<Flight>)
    ensures HeldEntries(fs + gs) == HeldEntries(fs) + HeldEntries(gs)
  {
    if gs == [] {
      assert fs + gs == fs;
    } else {
      hide HeldEntries;
      hide HeldPart;
      var n := |gs| - 1;
      assert gs == gs[..n] + [gs[n]] && fs + gs == (fs + gs[..n]) + [gs[n]];
      HeldSnoc(fs + gs[..n], gs[n]);
      HeldSnoc(gs[..n], gs[n]);
      HeldAppend(fs, gs[..n]);
    }
  }

  lemma HeldOne(f: Flight)
    ensures HeldEntries([f]) == HeldPart(f)
  {
    assert [f][..0] == [];
  }

  /** One flight's share of what is held. */
  lemma HeldAround(fs: seq<Flight>, i: nat, f: Flight)
    requires i < |fs|
    ensures HeldEntries(fs) == HeldEntries(fs[..i]) + HeldPart(fs[i]) + HeldEntries(fs[i + 1..])
    ensures HeldEntries(fs[i := f]) == HeldEntries(fs[..i]) + HeldPart(f) + HeldEntries(fs[i + 1..])
  {
    assert fs == fs[..i] + [fs[i]] + fs[i + 1..];
    assert fs[i := f] == fs[..i] + [f] + fs[i + 1..];
    HeldAppend(fs[..i] + [fs[i]], fs[i + 1..]);
    HeldAppend(fs[..i], [fs[i]]);
    HeldAppend(fs[..i] + [f], fs[i + 1..]);
    HeldAppend(fs[..i], [f]);
    HeldOne(fs[i]);
    HeldOne(f);
  }

  lemma {:induction false} NoneHeld(fs: seq<Flight>)
    requires forall f | f in fs :: !Holding(f)
    ensures HeldEntries(fs) == []
  {
    if fs != [] {
      NoneHeld(fs[..|fs| - 1]);
    }
  }

  // ---------- ascending sequences ----------

  lemma AcrossAscends(a: seq<Entry>, b: seq<Entry>, x: Entry, y: Entry)
    requires Ascending(a + b) && x in a && y in b
    ensures x.event.arrival < y.event.arrival
  {
    var i :| 0 <= i < |a| && a[i] == x;
    var j :| 0 <= j < |b| && b[j] == y;
    assert (a + b)[i] == x && (a + b)[|a| + j] == y;
  }

  lemma PrefixAscends(a: seq<Entry>, b: seq<Entry>)
    requires Ascending(a + b)
    ensures Ascending(a) && Ascending(b)
  {
    forall i, j | 0 <= i < j < |a| ensures a[i].event.arrival < a[j].event.arrival {
      assert (a + b)[i] == a[i] && (a + b)[j] == a[j];
    }
    forall i, j | 0 <= i < j < |b| ensures b[i].event.arrival < b[j].event.arrival {
      assert (a + b)[|a| + i] == b[i] && (a + b)[|a| + j] == b[j];
    }
  }

  lemma JoinAscends(a: seq<Entry>, b: seq<Entry>)
    requires Ascending(a) && Ascending(b)
    requires forall x, y | x in a && y in b :: x.event.arrival < y.event.arrival
    ensures Ascending(a + b)
  {
  }

  lemma MiddleGoes(a: seq<Entry>, b: seq<Entry>, c: seq<Entry>)
    requires Ascending(a + b + c)
    ensures Ascending(a + c)
  {
    assert a + b + c == a + (b + c);
    PrefixAscends(a, b + c);
    PrefixAscends(b, c);
    forall x, y | x in a && y in c ensures x.event.arrival < y.event.arrival {
      AcrossAscends(a, b + c, x, y);
    }
    JoinAscends(a, c);
  }

  lemma TruncatedAscends(a: seq<Entry>, b: seq<Entry>, n: nat)
    requires Ascending(a + b) && n <= |b|
    ensures Ascending(a + b[..n])
  {
    assert a + b == (a + b[..n]) + b[n..];
    PrefixAscends(a + b[..n], b[n..]);
  }

  lemma LastBeforeHead(a: seq<Entry>, b: seq<Entry>)
    requires Ascending(a) && Ascending(b) && a != [] && b != []
    requires a[|a| - 1].event.arrival < b[0].event.arrival
    ensures Ascending(a + b)
  {
    forall x, y | x in a && y in b ensures x.event.arrival < y.event.arrival {
      var i :| 0 <= i < |a| && a[i] == x;
      var j :| 0 <= j < |b| && b[j] == y;
    }
    JoinAscends(a, b);
  }

  lemma LastDecides(a: seq<Entry>, b: seq<Entry>)
    requires Ascending(a) && Ascending(b) && a != [] && b != []
    ensures Ascending(a + b) <==> a[|a| - 1].event.arrival < b[0].event.arrival
  {
    if a[|a| - 1].event.arrival < b[0].event.arrival {
      LastBeforeHead(a, b);
    } else if Ascending(a + b) {
      AcrossAscends(a, b, a[|a| - 1], b[0]);
    }
  }

  /**
   When putting a batch back in front of a queue keeps the order: when one of the two is empty, when the batch leaves
   the queue no room, or when it arrived before the queue's head.
   */
  lemma RequeueOrder(q: Queue, batch: seq<Entry>)
    requires Ascending(batch) && Ascending(q.entries) && |batch| <= q.maxlen
    ensures Ascending(BoundedQueue.Requeue(q, batch).entries) <==>
      || batch == []
      || q.entries == []
      || |batch| == q.maxlen
      || batch[|batch| - 1].event.arrival < q.entries[0].event.arrival
  {
    hide Ascending;
    var kept := q.entries[..Min(|q.entries|, q.maxlen - |batch|)];
    assert q.entries == kept + q.entries[|kept|..];
    PrefixAscends(kept, q.entries[|kept|..]);
    assert BoundedQueue.Requeue(q, batch).entries == batch + kept;
    if batch != [] && kept != [] {
      LastDecides(batch, kept);
    } else if batch == [] {
      assert batch + kept == kept;
    } else {
      assert batch + kept == batch;
    }
  }

  // ---------- one step ----------

  /** A batch is put back only when none drained later may still come back. */
  predicate NewestFirst(s: System, a: Action) {
    a.Requeue? ==> forall j | a.flight < j < |s.flights| :: !Holding(s.flights[j])
  }

  lemma AppendInOrder(s: System, entry: Entry, t: System)
    requires s.q.maxlen > 0 && InOrder(s) && Dated(s) && entry.event.arrival == |s.added|
    requires t.flights == s.flights && t.q.entries == Append(s.q, entry).entries
    requires t.added == s.added + [entry.event]
    ensures InOrder(t) && Dated(t)
  {
    hide HeldEntries;
    var held := HeldEntries(s.flights);
    var kept := if Lost(s.q) != [] then s.q.entries[1..] else s.q.entries;
    assert s.q.entries == Lost(s.q) + kept;
    assert held + s.q.entries == held + Lost(s.q) + kept;
    MiddleGoes(held, Lost(s.q), kept);
    JoinAscends(held + kept, [entry]);
    assert held + kept + [entry] == held + t.q.entries;
  }

  lemma DrainInOrder(s: System)
    requires InOrder(s) && Dated(s)
    ensures InOrder(DrainStep(s)) && Dated(DrainStep(s))
  {
    hide Ascending;
    hide HeldEntries;
    if s.q.entries != [] {
      HeldSnoc(s.flights, Flight(s.q.entries, Sending));
      assert HeldEntries(DrainStep(s).flights) + [] == HeldEntries(s.flights) + s.q.entries;
    }
  }

  /** A flight changes phase, holding its batch as before or no longer, and the queue is not touched. */
  ghost predicate OnlyPhase(s: System, i: nat, t: System) {
    && i < |s.flights| && |t.flights| == |s.flights|
    && t.q.entries == s.q.entries && t.added == s.added && t.flights == s.flights[i := t.flights[i]]
    && t.flights[i].batch == s.flights[i].batch && (Holding(t.flights[i]) ==> Holding(s.flights[i]))
  }

  lemma PhaseInOrder(s: System, i: nat, t: System)
    requires InOrder(s) && OnlyPhase(s, i, t)
    ensures InOrder(t)
  {
    hide Ascending;
    hide HeldEntries;
    HeldAround(s.flights, i, t.flights[i]);
    var before, after := HeldEntries(s.flights[..i]), HeldEntries(s.flights[i + 1..]);
    if HeldPart(t.flights[i]) != HeldPart(s.flights[i]) {
      var part := HeldPart(s.flights[i]);
      assert HeldEntries(s.flights) + s.q.entries == before + part + (after + s.q.entries);
      MiddleGoes(before, part, after + s.q.entries);
      assert HeldPart(t.flights[i]) == [];
      assert HeldEntries(t.flights) + t.q.entries == before + (after + s.q.entries);
    }
  }

  lemma PhaseDated(s: System, i: nat, t: System)
    requires Dated(s) && OnlyPhase(s, i, t)
    ensures Dated(t)
  {
    hide HeldEntries;
    HeldAround(s.flights, i, t.flights[i]);
    forall x | x in HeldEntries(t.flights) + t.q.entries ensures x.event.arrival < |t.added| {
      assert x in HeldEntries(s.flights) + s.q.entries;
    }
  }

  lemma ClearInOrder(s: System)
    requires InOrder(s) && Dated(s)
    ensures InOrder(ClearStep(s)) && Dated(ClearStep(s))
  {
    PrefixAscends(HeldEntries(s.flights), s.q.entries);
    assert HeldEntries(s.flights) + [] == HeldEntries(s.flights);
  }

  /** What is held and queued around the batch of flight `i`, before and after it is put back. */
  lemma RequeueParts(s: System, i: nat)
    requires InPhase(s, i, Refused)
    ensures var before, after := HeldEntries(s.flights[..i]), HeldEntries(s.flights[i + 1..]);
      && HeldEntries(s.flights) + s.q.entries == before + s.flights[i].batch + after + s.q.entries
      && HeldEntries(RequeueStep(s, i).flights) == before + after
  {
    hide HeldEntries;
    HeldAround(s.flights, i, RequeueStep(s, i).flights[i]);
  }

  lemma RequeueDated(s: System, i: nat)
    requires Dated(s) && InPhase(s, i, Refused)
    ensures Dated(RequeueStep(s, i))
  {
    RequeueParts(s, i);
    var t := RequeueStep(s, i);
    var batch := s.flights[i].batch;
    assert t.flights[i].batch == batch;
    assert forall x | x in t.q.entries :: x in batch + s.q.entries;
  }

  lemma NewestRequeued(s: System, i: nat)
    requires InOrder(s) && InPhase(s, i, Refused) && NewestFirst(s, Requeue(i))
    ensures InOrder(RequeueStep(s, i))
  {
    hide Ascending;
    hide HeldEntries;
    RequeueParts(s, i);
    NoneHeld(s.flights[i + 1..]);
    var before, all := HeldEntries(s.flights[..i]), s.flights[i].batch + s.q.entries;
    assert HeldEntries(s.flights) + s.q.entries == before + all;
    TruncatedAscends(before, all, Min(|all|, s.q.maxlen));
    assert HeldEntries(RequeueStep(s, i).flights) == before;
  }

  lemma OlderRequeued(s: System, i: nat)
    requires s.q.maxlen > 0 && InOrder(s) && Dated(s) && InPhase(s, i, Refused) && !NewestFirst(s, Requeue(i))
    ensures !InOrder(RequeueStep(s, i))
  {
    hide Ascending;
    hide HeldEntries;
    RequeueParts(s, i);
    var j :| i < j < |s.flights| && Holding(s.flights[j]);
    var later := s.flights[i + 1..];
    assert later[j - i - 1] == s.flights[j];
    HeldAround(later, j - i - 1, later[j - i - 1]);
    var before, after := HeldEntries(s.flights[..i]), HeldEntries(later);
    var batch, t := s.flights[i].batch, RequeueStep(s, i);
    assert s.flights[j].batch != [];
    var x, y := s.flights[j].batch[0], batch[0];
    assert x in after && y in before + batch;
    assert before + batch + after + s.q.entries == (before + batch) + (after + s.q.entries);
    AcrossAscends(before + batch, after + s.q.entries, y, x);
    if InOrder(t) {
      assert t.q.entries[0] == y;
      AcrossAscends(before + after, t.q.entries, x, y);
    }
  }

  lemma Unmoved(s: System, t: System)
    requires InOrder(s) && Dated(s)
    requires t.flights == s.flights && t.q.entries == s.q.entries && t.added == s.added
    ensures InOrder(t) && Dated(t)
  {
  }

  /** From a state in order, a step keeps the order exactly if it does not put back an older batch before a newer one. */
  lemma StepInOrder(s: System, a: Action)
    requires s.q.maxlen > 0 && Enabled(s, a) && InOrder(s) && Dated(s)
    ensures InOrder(Step(s, a)) <==> NewestFirst(s, a)
    ensures Dated(Step(s, a))
  {
    hide InOrder;
    hide Dated;
    match a
    case Add(e, key, deleted) =>
      if AddOutcome(s.q, s.policy) == Added {
        AppendInOrder(s, Entry(e, key), AddStep(s, Entry(e, key), deleted));
      }
    case Load(e, key) => AppendInOrder(s, Entry(e, key), LoadStep(s, Entry(e, key)));
    case Drain => DrainInOrder(s);
    case Requeue(i) =>
      RequeueDated(s, i);
      if NewestFirst(s, a) {
        NewestRequeued(s, i);
      } else {
        OlderRequeued(s, i);
      }
    case Clear => ClearInOrder(s);
    case Return(i, r) =>
      PhaseInOrder(s, i, ReturnStep(s, i, r));
      PhaseDated(s, i, ReturnStep(s, i, r));
    case Delete(i, deleted) =>
      PhaseInOrder(s, i, DeleteStep(s, i, deleted));
      PhaseDated(s, i, DeleteStep(s, i, deleted));
    case Settle(i) =>
      PhaseInOrder(s, i, SettleStep(s, i));
      PhaseDated(s, i, SettleStep(s, i));
    case _ => Unmoved(s, Step(s, a));
  }

  // ---------- whole runs ----------

  /** Every state on the way is in order. */
  ghost predicate AlwaysInOrder(s: System, acts: seq<Action>)
    decreases |acts|
  {
    InOrder(s) && (acts != [] ==> s.q.maxlen > 0 && Enabled(s, acts[0]) && AlwaysInOrder(Step(s, acts[0]), acts[1..]))
  }

  ghost predicate AlwaysNewestFirst(s: System, acts: seq<Action>)
    decreases |acts|
  {
    acts != [] ==>
      && s.q.maxlen > 0 && Enabled(s, acts[0])
      && NewestFirst(s, acts[0])
      && AlwaysNewestFirst(Step(s, acts[0]), acts[1..])
  }

  lemma {:induction false} RunInOrder(s: System, acts: seq<Action>, t: System)
    requires InOrder(s) && Dated(s) && Runs(s, acts, t)
    ensures AlwaysInOrder(s, acts) <==> AlwaysNewestFirst(s, acts)
    ensures AlwaysInOrder(s, acts) ==> InOrder(t)
    decreases |acts|
  {
    hide InOrder;
    hide Dated;
    hide Step;
    hide NewestFirst;
    if acts != [] {
      StepInOrder(s, acts[0]);
      if InOrder(Step(s, acts[0])) {
        RunInOrder(Step(s, acts[0]), acts[1..], t);
      }
    }
  }

  /**
   Exactly which runs keep arrival order, with any number of overlapping flushes: in flight and queue together are in
   order all the way if and only if a refused batch is only ever put back when no batch drained after it is still out.
   */
  lemma OrderIsKeptExactly(maxlen: nat, policy: Policy, store: map<string, string>, acts: seq<Action>, s: System)
    requires maxlen > 0 && Runs(Initial(maxlen, policy, store), acts, s)
    ensures AlwaysInOrder(Initial(maxlen, policy, store), acts) <==> AlwaysNewestFirst(Initial(maxlen, policy, store), acts)
    ensures AlwaysNewestFirst(Initial(maxlen, policy, store), acts) ==> Ascending(HeldEntries(s.flights) + s.q.entries)
  {
    RunInOrder(Initial(maxlen, policy, store), acts, s);
  }

  // ---------- a single flusher ----------

  /** A single flusher drains only when no earlier batch is still being dealt with. */
  predicate OneAtATime(s: System, a: Action) {
    a.Drain? ==> forall f | f in s.flights :: !Alive(f)
  }

  ghost predicate SerialRun(s: System, acts: seq<Action>)
    decreases |acts|
  {
    acts == [] ||
    (s.q.maxlen > 0 && Enabled(s, acts[0]) && OneAtATime(s, acts[0]) && SerialRun(Step(s, acts[0]), acts[1..]))
  }

  ghost predicate OnlyLastAlive(s: System) {
    forall i | 0 <= i < |s.flights| - 1 :: !Alive(s.flights[i])
  }

  lemma StepOnlyLastAlive(s: System, a: Action)
    requires s.q.maxlen > 0 && Enabled(s, a) && OneAtATime(s, a) && OnlyLastAlive(s)
    ensures OnlyLastAlive(Step(s, a)) && NewestFirst(s, a)
  {
    if a.Drain? {
      assert forall i | 0 <= i < |s.flights| :: s.flights[i] in s.flights;
    }
  }

  lemma {:induction false} SerialIsNewestFirst(s: System, acts: seq<Action>)
    requires OnlyLastAlive(s) && SerialRun(s, acts)
    ensures AlwaysNewestFirst(s, acts)
    decreases |acts|
  {
    hide Step;
    hide NewestFirst;
    if acts != [] {
      StepOnlyLastAlive(s, acts[0]);
      SerialIsNewestFirst(Step(s, acts[0]), acts[1..]);
    }
  }

  /**
   With a single flusher, the batch in flight followed by the queue is always in arrival order: through adds,
   overflow at either end, and any number of failed sends.
   */
  lemma SingleFlusherKeepsOrder(maxlen: nat, policy: Policy, store: map<string, string>, acts: seq<Action>, s: System)
    requires maxlen > 0 && Runs(Initial(maxlen, policy, store), acts, s)
    requires SerialRun(Initial(maxlen, policy, store), acts)
    ensures Ascending(HeldEntries(s.flights) + s.q.entries)
  {
    SerialIsNewestFirst(Initial(maxlen, policy, store), acts);
    OrderIsKeptExactly(maxlen, policy, store, acts, s);
  }

  // ---------- two that overlap ----------

  /** Two events drained separately, both sends refused, the earlier batch put back first. */
  function OverlappingRun(e: Event, f: Event): seq<Action> {
    var back := [Requeue(0)] + [Requeue(1)];
    var refused := [Refusal(0, e)] + ([Refusal(1, f)] + back);
    [Add(e, "", true)] + ([Drain] + ([Add(f, "", true)] + ([Drain] + refused)))
  }

  /** The server does not take flight `i`, which carries one event. */
  function Refusal(i: nat, e: Event): Action {
    Return(i, Returned(false, [Leaf([e], Deferred)]))
  }

  /** An empty queue after one more event was added and drained. */
  function Departed(s: System, e: Event): System {
    s.(q := Queue(s.q.maxlen, [], s.q.buffered + 1, s.q.flushed + 1, s.q.dropped),
       added := s.added + [e],
       flights := s.flights + [Flight([Entry(e, "")], Sending)])
  }

  lemma EventDeparts(s: System, e: Event, rest: seq<Action>, t: System)
    requires s.q.maxlen > 0 && s.q.entries == [] && NewEvent(s, e) && Runs(Departed(s, e), rest, t)
    ensures Runs(s, [Add(e, "", true)] + ([Drain] + rest), t)
  {
    hide Runs;
    var s1 := AddStep(s, Entry(e, ""), true);
    assert s1.q.entries == [Entry(e, "")];
    assert s1.dropped == s.dropped;
    assert DrainStep(s1) == Departed(s, e);
    StepThenRun(s1, Drain, rest, t);
    StepThenRun(s, Add(e, "", true), [Drain] + rest, t);
  }

  function BothInFlight(e: Event, f: Event): System {
    Departed(Departed(Initial(2, Drop, map[]), e), f)
  }

  function BothRefused(e: Event, f: Event): System {
    BothInFlight(e, f).(flights := [Flight([Entry(e, "")], Refused), Flight([Entry(f, "")], Refused)])
  }

  lemma BothAreRefused(e: Event, f: Event, rest: seq<Action>, t: System)
    requires Runs(BothRefused(e, f), rest, t)
    ensures Runs(BothInFlight(e, f), [Refusal(0, e)] + ([Refusal(1, f)] + rest), t)
  {
    hide Runs;
    SingleLeaf([e], Deferred);
    SingleLeaf([f], Deferred);
    var s := ReturnStep(BothInFlight(e, f), 0, Refusal(0, e).result);
    assert s == BothInFlight(e, f).(flights := [Flight([Entry(e, "")], Refused), Flight([Entry(f, "")], Sending)]);
    assert ReturnStep(s, 1, Refusal(1, f).result) == BothRefused(e, f);
    StepThenRun(s, Refusal(1, f), rest, t);
    StepThenRun(BothInFlight(e, f), Refusal(0, e), [Refusal(1, f)] + rest, t);
  }

  lemma BothComeBack(e: Event, f: Event) returns (s: System)
    ensures Runs(BothRefused(e, f), [Requeue(0)] + [Requeue(1)], s)
    ensures s.q.entries == [Entry(f, ""), Entry(e, "")]
  {
    var s7 := RequeueStep(BothRefused(e, f), 0);
    assert s7.q.entries == [Entry(e, "")];
    s := RequeueStep(s7, 1);
    assert s.q.entries == [Entry(f, ""), Entry(e, "")];
    StepThenRun(s7, Requeue(1), [], s);
    StepThenRun(BothRefused(e, f), Requeue(0), [Requeue(1)], s);
  }

  /** Two overlapping batches that both fail come back in the order in which they are put back. */
  lemma OverlappingFlushersCanReorder(e: Event, f: Event) returns (s: System)
    requires e.arrival == 0 && f.arrival == 1 && e.id != f.id
    ensures Runs(Initial(2, Drop, map[]), OverlappingRun(e, f), s)
    ensures s.q.entries == [Entry(f, ""), Entry(e, "")] && !Ascending(s.q.entries)
  {
    s := BothComeBack(e, f);
    assert !(s.q.entries[0].event.arrival < s.q.entries[1].event.arrival);
    var back := [Requeue(0)] + [Requeue(1)];
    BothAreRefused(e, f, back, s);
    var refused := [Refusal(0, e)] + ([Refusal(1, f)] + back);
    EventDeparts(Departed(Initial(2, Drop, map[]), e), f, refused, s);
    EventDeparts(Initial(2, Drop, map[]), e, [Add(f, "", true)] + ([Drain] + refused), s);
  }
}
