/** Batching by destination as a state machine over values (transmit/direct_transmit.go): every step is one
    critical section of a goroutine that enqueues, of the ticker, or of Stop, so that a run is any
    interleaving of them. */
module Batching {
  import opened Options
  import opened Packing

  type Time = int

  datatype Batch = Batch(events: seq<Event>, start: Time)

  /** A tick in progress: when it began, and the keys it has still to visit. */
  datatype Tick = Tick(start: Time, left: set<Destination>)

  /** handed are the batches given to senders, in order; enqueued is a history. */
  datatype State = State(batches: map<Destination, Batch>, handed: seq<seq<Event>>, tick: Option<Tick>, stopped: bool,
                         enqueued: seq<Event>)

  const INIT := State(map[], [], None, false, [])

  datatype Limits = Limits(maxBatchSize: int, timeout: int)
  {
    /** No batch is larger; a limit below 1 counts as 1. */
    function Largest(): nat {
      if maxBatchSize < 1 then 1 else maxBatchSize
    }
  }

  function Created(s: State, d: Destination): State {
    if d in s.batches then s else s.(batches := s.batches[d := Batch([], 0)])
  }

  function Appended(s: State, ev: Event, now: Time, limits: Limits): State
    requires ev.dest in s.batches
  {
    var b := s.batches[ev.dest];
    var events, start := b.events + [ev], if b.events == [] then now else b.start;
    var s' := s.(enqueued := s.enqueued + [ev]);
    if |events| >= limits.maxBatchSize then
      s'.(batches := s.batches[ev.dest := Batch([], start)], handed := s.handed + [events])
    else s'.(batches := s.batches[ev.dest := Batch(events, start)])
  }

  function TickStarted(s: State, now: Time): State {
    s.(tick := Some(Tick(now, s.batches.Keys)))
  }

  function Visited(s: State, d: Destination, limits: Limits): State
    requires s.tick.Some?
  {
    var s' := s.(tick := Some(Tick(s.tick.value.start, s.tick.value.left - {d})));
    if d in s.batches && s.batches[d].events != [] && s.tick.value.start - s.batches[d].start >= limits.timeout then
      s'.(batches := s.batches[d := s.batches[d].(events := [])], handed := s.handed + [s.batches[d].events])
    else s'
  }

  /** Hands off what is pending, for an order of the destinations. */
  function Flushed(batches: map<Destination, Batch>, order: seq<Destination>): seq<seq<Event>> {
    if order == [] then []
    else
      var d := order[|order| - 1];
      var rest := Flushed(batches, order[..|order| - 1]);
      if d in batches && batches[d].events != [] then rest + [batches[d].events] else rest
  }

  function Stopped(s: State, order: seq<Destination>): State {
    s.(batches := map[], handed := s.handed + Flushed(s.batches, order), stopped := true)
  }

  datatype Step =
    | Create(now: Time, dest: Destination)
    | Append(now: Time, ev: Event)
    | StartTick(now: Time)
    | Visit(now: Time, dest: Destination)
    | EndTick(now: Time)
    | Stop(now: Time, order: seq<Destination>)

  ghost predicate Next(s: State, e: Step, s': State, limits: Limits) {
    match e
    case Create(_, dest) => !s.stopped && s' == Created(s, dest)
    case Append(now, ev) => !s.stopped && ev.dest in s.batches && s' == Appended(s, ev, now, limits)
    case StartTick(now) => !s.stopped && s.tick.None? && s' == TickStarted(s, now)
    case Visit(_, dest) => s.tick.Some? && dest in s.tick.value.left && s' == Visited(s, dest, limits)
    case EndTick(_) => s.tick.Some? && s.tick.value.left == {} && s' == s.(tick := None)
    case Stop(_, order) => !s.stopped && s.tick.None? && IsOrder(order, s.batches.Keys) && s' == Stopped(s, order)
  }

  ghost predicate IsRun(run: seq<State>, events: seq<Step>, limits: Limits) {
    && |run| == |events| + 1 && run[0] == INIT
    && (forall i :: 0 <= i < |events| ==> Next(run[i], events[i], run[i + 1], limits))
    && (forall i, j :: 0 <= i <= j < |events| ==> events[i].now <= events[j].now)
  }

  /** The events for a destination, in order. */
  function For(events: seq<Event>, d: Destination): seq<Event> {
    if events == [] then []
    else
      var rest := For(events[..|events| - 1], d);
      if events[|events| - 1].dest == d then rest + [events[|events| - 1]] else rest
  }

  /** The events of batches handed off for a destination, in order. */
  function HandedTo(handed: seq<seq<Event>>, d: Destination): seq<Event> {
    if handed == [] then [] else HandedTo(handed[..|handed| - 1], d) + For(handed[|handed| - 1], d)
  }

  function Pending(s: State, d: Destination): seq<Event> {
    if d in s.batches then s.batches[d].events else []
  }

  ghost predicate OneDestination(events: seq<Event>, d: Destination) {
    forall ev :: ev in events ==> ev.dest == d
  }

  /** Fit to be handed off: for one destination, not empty, and not too large. */
  ghost predicate Proper(events: seq<Event>, limits: Limits) {
    events != [] && |events| <= limits.Largest() && OneDestination(events, events[0].dest)
  }

  /** Every event enqueued has been handed off once or is pending, in order for each destination. */
  ghost predicate NothingLost(s: State) {
    forall d :: For(s.enqueued, d) == HandedTo(s.handed, d) + Pending(s, d)
  }

  ghost predicate Sorted(s: State, limits: Limits) {
    && (forall i :: 0 <= i < |s.handed| ==> Proper(s.handed[i], limits))
    && (forall d :: d in s.batches ==>
          OneDestination(s.batches[d].events, d) && |s.batches[d].events| < limits.Largest())
  }

  /** The batch is not due for a tick that starts at t. */
  predicate Young(b: Batch, t: Time, limits: Limits) {
    b.events == [] || t - b.start < limits.timeout
  }

  /** Batches that the tick need not visit, or has visited, are young. */
  ghost predicate TickWorks(s: State, limits: Limits) {
    s.tick.Some? ==>
      forall d :: d in s.batches && d !in s.tick.value.left ==> Young(s.batches[d], s.tick.value.start, limits)
  }

  /** No batch began in the future. */
  ghost predicate Timely(s: State, now: Time) {
    && (s.tick.Some? ==> s.tick.value.start <= now)
    && forall d :: d in s.batches && s.batches[d].events != [] ==> s.batches[d].start <= now
  }

  ghost predicate Safe(s: State, limits: Limits, now: Time) {
    NothingLost(s) && Sorted(s, limits) && TickWorks(s, limits) && Timely(s, now)
  }

  lemma {:induction false} ForOne(events: seq<Event>, d: Destination, e: Destination)
    requires OneDestination(events, d)
    ensures For(events, e) == if d == e then events else []
  {
    if events != [] {
      var n := |events| - 1;
      assert events[n] in events;
      ForOne(events[..n], d, e);
      assert events == events[..n] + [events[n]];
    }
  }

  lemma HandedSnoc(handed: seq<seq<Event>>, events: seq<Event>, d: Destination)
    ensures HandedTo(handed + [events], d) == HandedTo(handed, d) + For(events, d)
  {
    assert (handed + [events])[..|handed|] == handed;
  }

  lemma EnqueuedSnoc(events: seq<Event>, ev: Event, d: Destination)
    ensures For(events + [ev], d) == if ev.dest == d then For(events, d) + [ev] else For(events, d)
  {
    assert (events + [ev])[..|events|] == events;
  }

  lemma AppendLosesNothing(s: State, ev: Event, now: Time, limits: Limits)
    requires NothingLost(s) && Sorted(s, limits) && ev.dest in s.batches
    ensures NothingLost(Appended(s, ev, now, limits))
  {
    hide For, HandedTo;
    var s' := Appended(s, ev, now, limits);
    var events := s.batches[ev.dest].events + [ev];
    assert OneDestination(events, ev.dest);
    forall d ensures For(s'.enqueued, d) == HandedTo(s'.handed, d) + Pending(s', d) {
      EnqueuedSnoc(s.enqueued, ev, d);
      HandedSnoc(s.handed, events, d);
      ForOne(events, ev.dest, d);
      assert For(s.enqueued, d) == HandedTo(s.handed, d) + Pending(s, d);
    }
  }

  lemma AppendKeeps(s: State, ev: Event, now: Time, limits: Limits, before: Time)
    requires Safe(s, limits, before) && before <= now && ev.dest in s.batches && limits.timeout > 0
    ensures Safe(Appended(s, ev, now, limits), limits, now)
  {
    AppendLosesNothing(s, ev, now, limits);
    hide NothingLost;
    var events := s.batches[ev.dest].events + [ev];
    assert OneDestination(events, ev.dest);
    assert events[0] in events;
  }

  lemma VisitLosesNothing(s: State, d: Destination, limits: Limits)
    requires NothingLost(s) && Sorted(s, limits) && s.tick.Some?
    ensures NothingLost(Visited(s, d, limits))
  {
    hide For, HandedTo;
    var s' := Visited(s, d, limits);
    forall e ensures For(s'.enqueued, e) == HandedTo(s'.handed, e) + Pending(s', e) {
      assert For(s.enqueued, e) == HandedTo(s.handed, e) + Pending(s, e);
      if s'.handed != s.handed {
        HandedSnoc(s.handed, s.batches[d].events, e);
        ForOne(s.batches[d].events, d, e);
      }
    }
  }

  lemma VisitKeeps(s: State, d: Destination, limits: Limits, now: Time)
    requires Safe(s, limits, now) && s.tick.Some?
    ensures Safe(Visited(s, d, limits), limits, now)
  {
    VisitLosesNothing(s, d, limits);
    hide NothingLost;
  }

  lemma {:induction false} FlushedTo(batches: map<Destination, Batch>, order: seq<Destination>, d: Destination)
    requires (forall i, j :: 0 <= i < j < |order| ==> order[i] != order[j])
    requires forall e :: e in batches ==> OneDestination(batches[e].events, e)
    ensures HandedTo(Flushed(batches, order), d) == if d in order && d in batches then batches[d].events else []
  {
    if order != [] {
      var n := |order| - 1;
      FlushedTo(batches, order[..n], d);
      assert order == order[..n] + [order[n]];
      if order[n] in batches && batches[order[n]].events != [] {
        HandedSnoc(Flushed(batches, order[..n]), batches[order[n]].events, d);
        ForOne(batches[order[n]].events, order[n], d);
      }
    }
  }

  lemma {:induction false} HandedConcat(a: seq<seq<Event>>, b: seq<seq<Event>>, d: Destination)
    ensures HandedTo(a + b, d) == HandedTo(a, d) + HandedTo(b, d)
  {
    if b == [] {
      assert a + b == a;
    } else {
      var n := |b| - 1;
      assert (a + b)[..|a| + n] == a + b[..n];
      HandedConcat(a, b[..n], d);
    }
  }

  lemma {:induction false} FlushedAreProper(batches: map<Destination, Batch>, order: seq<Destination>, limits: Limits)
    requires forall d :: d in batches ==> OneDestination(batches[d].events, d) && |batches[d].events| < limits.Largest()
    ensures forall i :: 0 <= i < |Flushed(batches, order)| ==> Proper(Flushed(batches, order)[i], limits)
  {
    if order != [] {
      var n := |order| - 1;
      FlushedAreProper(batches, order[..n], limits);
      var d := order[n];
      if d in batches && batches[d].events != [] {
        assert batches[d].events[0] in batches[d].events;
      }
    }
  }

  lemma StopKeeps(s: State, order: seq<Destination>, limits: Limits, now: Time)
    requires Safe(s, limits, now) && s.tick.None? && IsOrder(order, s.batches.Keys)
    ensures Safe(Stopped(s, order), limits, now)
  {
    var s' := Stopped(s, order);
    FlushedAreProper(s.batches, order, limits);
    forall d ensures For(s'.enqueued, d) == HandedTo(s'.handed, d) + Pending(s', d) {
      assert For(s.enqueued, d) == HandedTo(s.handed, d) + Pending(s, d);
      FlushedTo(s.batches, order, d);
      HandedConcat(s.handed, Flushed(s.batches, order), d);
    }
  }

  lemma StepKeeps(s: State, e: Step, s': State, limits: Limits, before: Time)
    requires Safe(s, limits, before) && before <= e.now && Next(s, e, s', limits) && limits.timeout > 0
    ensures Safe(s', limits, e.now)
  {
    assert Safe(s, limits, e.now);
    match e
    case Append(now, ev) => AppendKeeps(s, ev, now, limits, before);
    case Visit(_, d) => VisitKeeps(s, d, limits, e.now);
    case Stop(_, order) => StopKeeps(s, order, limits, e.now);
    case Create(_, d) =>
      assert forall c :: Pending(s', c) == Pending(s, c);
    case _ =>
  }

  /** In every run: nothing is lost, repeated or reordered, and every batch handed off is for one destination
      and no larger than the limit. */
  lemma {:induction false} RunIsSafe(run: seq<State>, events: seq<Step>, limits: Limits, now: Time)
    requires IsRun(run, events, limits) && limits.timeout > 0
    requires forall i :: 0 <= i < |events| ==> events[i].now <= now
    ensures Safe(run[|events|], limits, now)
    decreases |events|
  {
    if events == [] {
      InitIsSafe(limits, now);
    } else {
      hide Next, Safe;
      var n := |events| - 1;
      RunIsSafe(run[..n + 1], events[..n], limits, events[n].now);
      assert Next(run[n], events[n], run[n + 1], limits);
      StepKeeps(run[n], events[n], run[n + 1], limits, events[n].now);
      Later(run[n + 1], limits, events[n].now, now);
    }
  }

  lemma InitIsSafe(limits: Limits, now: Time)
    ensures Safe(INIT, limits, now)
  {
    assert forall d :: For([], d) == [] && HandedTo([], d) == [] && Pending(INIT, d) == [];
  }

  lemma Later(s: State, limits: Limits, now: Time, later: Time)
    requires Safe(s, limits, now) && now <= later
    ensures Safe(s, limits, later)
  {
  }

  /** When a tick ends, no pending batch had reached the timeout when it began. */
  lemma TickLeavesNothingStale(run: seq<State>, events: seq<Step>, limits: Limits, i: nat, d: Destination)
    requires IsRun(run, events, limits) && limits.timeout > 0 && i < |events| && events[i].EndTick?
    requires d in run[i + 1].batches
    ensures run[i].tick.Some? && Young(run[i + 1].batches[d], run[i].tick.value.start, limits)
  {
    RunIsSafe(run[..i + 1], events[..i], limits, events[i].now);
    assert Next(run[i], events[i], run[i + 1], limits);
  }

  /** After Stop, the batches handed off for a destination are the events enqueued for it, in order. */
  lemma StopHandsOffEverything(run: seq<State>, events: seq<Step>, limits: Limits, d: Destination)
    requires IsRun(run, events, limits) && limits.timeout > 0 && run[|events|].stopped
    ensures HandedTo(run[|events|].handed, d) == For(run[|events|].enqueued, d)
  {
    var now := if events == [] then 0 else events[|events| - 1].now;
    RunIsSafe(run, events, limits, now);
    StoppedIsEmpty(run, events, limits);
    assert Pending(run[|events|], d) == [];
  }

  lemma {:induction false} StoppedIsEmpty(run: seq<State>, events: seq<Step>, limits: Limits)
    requires IsRun(run, events, limits)
    ensures run[|events|].stopped ==> run[|events|].batches == map[] && run[|events|].tick.None?
    decreases |events|
  {
    if events != [] {
      var n := |events| - 1;
      StoppedIsEmpty(run[..n + 1], events[..n], limits);
      assert Next(run[n], events[n], run[n + 1], limits);
    }
  }

  /** What is sent of the batches handed off for a destination. */
  function Sent(requests: seq<seq<Request>>, handed: seq<seq<Event>>, d: Destination): seq<Event>
    requires |requests| == |handed|
  {
    if handed == [] then []
    else
      var n := |handed| - 1;
      Sent(requests[..n], handed[..n], d) + For(EventsOf(requests[n]), d)
  }

  lemma {:induction false} AcceptedFor(events: seq<Event>, d: Destination)
    ensures For(Accepted(events), d) == Accepted(For(events, d))
  {
    hide Encoding;
    if events != [] {
      var n := |events| - 1;
      AcceptedFor(events[..n], d);
      EnqueuedSnoc(Accepted(events[..n]), events[n], d);
      BodySnoc(For(events[..n], d), events[n]);
    }
  }

  /** Batching and packing together: when every batch handed off is packed as it should be, the requests hold
      the acceptable ones of the events that were handed off for a destination, in order. */
  lemma {:induction false} RequestsHoldAcceptedEvents(requests: seq<seq<Request>>, handed: seq<seq<Event>>,
                                                      d: Destination)
    requires |requests| == |handed| && forall i :: 0 <= i < |handed| ==> EventsOf(requests[i]) == Accepted(handed[i])
    ensures Sent(requests, handed, d) == Accepted(HandedTo(handed, d))
  {
    if handed != [] {
      var n := |handed| - 1;
      RequestsHoldAcceptedEvents(requests[..n], handed[..n], d);
      AcceptedFor(handed[n], d);
      AcceptedConcat(HandedTo(handed[..n], d), For(handed[n], d));
    }
  }

  /** So after Stop every acceptable event that was enqueued is in exactly one request, in order. */
  lemma EverythingIsSent(run: seq<State>, steps: seq<Step>, limits: Limits, requests: seq<seq<Request>>, d: Destination)
    requires IsRun(run, steps, limits) && limits.timeout > 0 && run[|steps|].stopped
    requires |requests| == |run[|steps|].handed|
    requires forall i :: 0 <= i < |requests| ==> EventsOf(requests[i]) == Accepted(run[|steps|].handed[i])
    ensures Sent(requests, run[|steps|].handed, d) == Accepted(For(run[|steps|].enqueued, d))
  {
    RequestsHoldAcceptedEvents(requests, run[|steps|].handed, d);
    StopHandsOffEverything(run, steps, limits, d);
  }

  /** A tick that no other goroutine interrupts, for an order of the keys. */
  function Visits(s: State, order: seq<Destination>, limits: Limits): (r: State)
    requires s.tick.Some?
    ensures r.tick.Some?
  {
    if order == [] then s else Visited(Visits(s, order[..|order| - 1], limits), order[|order| - 1], limits)
  }

  lemma VisitsNone(s: State, limits: Limits)
    requires s.tick.Some?
    ensures Visits(s, [], limits) == s
  {
  }

  lemma VisitsOne(s: State, order: seq<Destination>, d: Destination, limits: Limits)
    requires s.tick.Some?
    ensures Visits(s, order + [d], limits) == Visited(Visits(s, order, limits), d, limits)
  {
    assert (order + [d])[..|order|] == order;
  }

  /** A tick that has visited the keys that were left can end. */
  lemma {:induction false} VisitedTickEnds(s: State, order: seq<Destination>, limits: Limits)
    requires s.tick.Some?
    ensures Visits(s, order, limits).tick.value.left == s.tick.value.left - set d | d in order
    ensures (forall d :: d in s.tick.value.left ==> d in order) ==> Visits(s, order, limits).tick.value.left == {}
  {
    if order != [] {
      var n := |order| - 1;
      VisitedTickEnds(s, order[..n], limits);
      assert order == order[..n] + [order[n]];
    }
  }
}
