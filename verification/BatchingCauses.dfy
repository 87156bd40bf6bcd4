/** Why batches are handed off, told by the steps of a run alone: a batch is full, or old enough for a tick, or flushed
    by Stop; and no batch is handed off for another reason, or kept when it has one. */
module BatchingCauses {
  import opened Options
  import opened Packing
  import opened Batching

  /** An event that was appended, and when. */
  datatype Addition = Addition(now: Time, ev: Event)

  function EventsIn(additions: seq<Addition>): seq<Event> {
    seq(|additions|, i requires 0 <= i < |additions| => additions[i].ev)
  }

  /** What was appended for a destination since the last hand-off of its batch: a step that appends to it or visits it,
      and during which something is handed off, ends the batch, and so does Stop. */
  ghost function Since(run: seq<State>, steps: seq<Step>, limits: Limits, n: nat, d: Destination): seq<Addition>
    requires IsRun(run, steps, limits) && n <= |steps|
  {
    if n == 0 then []
    else
      var before, grew := Since(run, steps, limits, n - 1, d), |run[n].handed| > |run[n - 1].handed|;
      match steps[n - 1]
      case Append(now, ev) => if ev.dest != d then before else if grew then [] else before + [Addition(now, ev)]
      case Visit(_, e) => if e == d && grew then [] else before
      case Stop(_, _) => []
      case _ => before
  }

  /** When the tick in progress began. */
  function TickBegan(steps: seq<Step>, n: nat): Time
    requires n <= |steps|
  {
    if n == 0 then 0 else if steps[n - 1].StartTick? then steps[n - 1].now else TickBegan(steps, n - 1)
  }

  /** The pending batch is what was appended since the last hand-off, and began with the first of that. */
  ghost predicate PendingIs(s: State, d: Destination, additions: seq<Addition>) {
    && Pending(s, d) == EventsIn(additions)
    && (additions != [] ==> d in s.batches && s.batches[d].start == additions[0].now)
  }

  /** Batches that Stop flushes: those that are not empty, in some order of the destinations. */
  ghost function FlushedBy(pending: Destination -> seq<Event>, order: seq<Destination>): seq<seq<Event>> {
    if order == [] then []
    else (if pending(order[0]) == [] then [] else [pending(order[0])]) + FlushedBy(pending, order[1..])
  }

  lemma {:induction false} FlushedSnoc(pending: Destination -> seq<Event>, order: seq<Destination>, d: Destination)
    ensures FlushedBy(pending, order + [d])
            == FlushedBy(pending, order) + if pending(d) == [] then [] else [pending(d)]
  {
    if order == [] {
      assert [] + [d] == [d] && [d][1..] == [];
    } else {
      FlushedSnoc(pending, order[1..], d);
      assert (order + [d])[1..] == order[1..] + [d];
    }
  }

  lemma {:induction false} FlushedIs(batches: map<Destination, Batch>, pending: Destination -> seq<Event>,
                                     order: seq<Destination>)
    requires forall d :: d in order ==> d in batches && pending(d) == batches[d].events
    ensures Flushed(batches, order) == FlushedBy(pending, order)
    decreases |order|
  {
    if order != [] {
      var n := |order| - 1;
      FlushedIs(batches, pending, order[..n]);
      FlushedSnoc(pending, order[..n], order[n]);
      assert order == order[..n] + [order[n]];
    }
  }

  /** What an append does: a batch that it fills is handed off. */
  lemma AppendHandsOff(s: State, e: Step, s': State, limits: Limits, additions: seq<Addition>)
    requires e.Append? && Next(s, e, s', limits) && PendingIs(s, e.ev.dest, additions)
    ensures var more, full := additions + [Addition(e.now, e.ev)], |additions| + 1 >= limits.maxBatchSize;
      && s'.handed == (if full then s.handed + [EventsIn(more)] else s.handed)
      && PendingIs(s', e.ev.dest, if full then [] else more)
      && forall d :: d != e.ev.dest ==> Pending(s', d) == Pending(s, d) && (d in s.batches <==> d in s'.batches)
                                        && (d in s.batches ==> s'.batches[d] == s.batches[d])
  {
    assert EventsIn(additions + [Addition(e.now, e.ev)]) == EventsIn(additions) + [e.ev];
  }

  /** What the visit of a tick does: a batch whose first event is old enough is handed off. */
  lemma VisitHandsOff(s: State, e: Step, s': State, limits: Limits, additions: seq<Addition>)
    requires e.Visit? && Next(s, e, s', limits) && PendingIs(s, e.dest, additions)
    ensures s.tick.Some?
    ensures var due := additions != [] && s.tick.value.start - additions[0].now >= limits.timeout;
      && s'.handed == (if due then s.handed + [EventsIn(additions)] else s.handed)
      && PendingIs(s', e.dest, if due then [] else additions)
      && forall d :: d != e.dest ==> (d in s.batches <==> d in s'.batches)
                                     && (d in s.batches ==> s'.batches[d] == s.batches[d])
  {
  }

  ghost predicate TickIs(s: State, steps: seq<Step>, n: nat)
    requires n <= |steps|
  {
    s.tick.Some? ==> s.tick.value.start == TickBegan(steps, n)
  }

  lemma StepIs(run: seq<State>, steps: seq<Step>, limits: Limits, n: nat)
    requires IsRun(run, steps, limits) && n < |steps|
    ensures |run| == |steps| + 1 && Next(run[n], steps[n], run[n + 1], limits)
  {
  }

  lemma SincePending(run: seq<State>, steps: seq<Step>, limits: Limits, n: nat, d: Destination)
    requires IsRun(run, steps, limits) && n < |steps|
    requires PendingIs(run[n], d, Since(run, steps, limits, n, d))
    ensures PendingIs(run[n + 1], d, Since(run, steps, limits, n + 1, d))
  {
    StepIs(run, steps, limits, n);
    var s, e, s', before := run[n], steps[n], run[n + 1], Since(run, steps, limits, n, d);
    match e
    case Append(_, ev) =>
      if ev.dest == d {
        AppendHandsOff(s, e, s', limits, before);
      }
    case Visit(_, f) =>
      if f == d {
        VisitHandsOff(s, e, s', limits, before);
      }
    case _ =>
  }

  /** In every run, what is pending is what was appended since the last hand-off. */
  lemma {:induction false} RunPending(run: seq<State>, steps: seq<Step>, limits: Limits, n: nat, d: Destination)
    requires IsRun(run, steps, limits) && n <= |steps|
    ensures PendingIs(run[n], d, Since(run, steps, limits, n, d)) && TickIs(run[n], steps, n)
  {
    if n > 0 {
      StepIs(run, steps, limits, n - 1);
      RunPending(run, steps, limits, n - 1, d);
      SincePending(run, steps, limits, n - 1, d);
    }
  }

  /** What each step of a run hands off, exactly. An append hands off what it fills; a visit, what began at least the
      timeout before the tick; Stop, whatever is pending; and no other step hands anything off. */
  lemma HandOffs(run: seq<State>, steps: seq<Step>, limits: Limits, n: nat)
    requires IsRun(run, steps, limits) && n < |steps|
    ensures match steps[n]
      case Append(now, ev) =>
        var additions := Since(run, steps, limits, n, ev.dest) + [Addition(now, ev)];
        run[n + 1].handed
        == run[n].handed + if |additions| >= limits.maxBatchSize then [EventsIn(additions)] else []
      case Visit(_, d) =>
        var additions := Since(run, steps, limits, n, d);
        run[n + 1].handed
        == run[n].handed
           + if additions != [] && TickBegan(steps, n) - additions[0].now >= limits.timeout then [EventsIn(additions)]
             else []
      case Stop(_, order) =>
        && (forall d :: Since(run, steps, limits, n, d) != [] ==> d in order)
        && run[n + 1].handed
           == run[n].handed + FlushedBy((d: Destination) => EventsIn(Since(run, steps, limits, n, d)), order)
      case _ => run[n + 1].handed == run[n].handed
  {
    StepIs(run, steps, limits, n);
    var s, e, s' := run[n], steps[n], run[n + 1];
    match e
    case Append(_, ev) =>
      RunPending(run, steps, limits, n, ev.dest);
      AppendHandsOff(s, e, s', limits, Since(run, steps, limits, n, ev.dest));
    case Visit(_, d) =>
      RunPending(run, steps, limits, n, d);
      VisitHandsOff(s, e, s', limits, Since(run, steps, limits, n, d));
    case Stop(_, order) =>
      forall d ensures Pending(s, d) == EventsIn(Since(run, steps, limits, n, d)) {
        RunPending(run, steps, limits, n, d);
      }
      FlushedIs(s.batches, (d: Destination) => EventsIn(Since(run, steps, limits, n, d)), order);
    case _ =>
  }

  /** The step that handed a batch off was an append that filled it, the visit of a tick that began at least the timeout
      after the first of its events was appended, or Stop. */
  ghost predicate Causes(run: seq<State>, steps: seq<Step>, limits: Limits, n: nat, events: seq<Event>)
    requires IsRun(run, steps, limits) && n < |steps|
  {
    match steps[n]
    case Append(now, ev) =>
      var additions := Since(run, steps, limits, n, ev.dest) + [Addition(now, ev)];
      events == EventsIn(additions) && |events| >= limits.maxBatchSize
    case Visit(_, d) =>
      var additions := Since(run, steps, limits, n, d);
      events == EventsIn(additions) && events != [] && TickBegan(steps, n) - additions[0].now >= limits.timeout
    case Stop(_, order) => exists d :: d in order && events == EventsIn(Since(run, steps, limits, n, d)) && events != []
    case _ => false
  }

  lemma {:induction false} FlushedHas(pending: Destination -> seq<Event>, order: seq<Destination>, i: nat)
    requires i < |FlushedBy(pending, order)|
    ensures exists d :: d in order && pending(d) == FlushedBy(pending, order)[i] && pending(d) != []
  {
    var first := if pending(order[0]) == [] then [] else [pending(order[0])];
    if i < |first| {
      assert order[0] in order && pending(order[0]) == FlushedBy(pending, order)[i];
    } else {
      FlushedHas(pending, order[1..], i - |first|);
      var d :| d in order[1..] && pending(d) == FlushedBy(pending, order[1..])[i - |first|] && pending(d) != [];
      assert d in order;
    }
  }

  /** Every batch that a run hands off has a cause. */
  lemma {:induction false} EveryHandOffHasACause(run: seq<State>, steps: seq<Step>, limits: Limits, n: nat, i: nat)
    returns (k: nat)
    requires IsRun(run, steps, limits) && n <= |steps| && i < |run[n].handed|
    ensures k < n && |run[k].handed| <= i < |run[k + 1].handed|
    ensures Causes(run, steps, limits, k, run[n].handed[i])
  {
    hide Next;
    HandOffs(run, steps, limits, n - 1);
    if i < |run[n - 1].handed| {
      k := EveryHandOffHasACause(run, steps, limits, n - 1, i);
    } else {
      k := n - 1;
      if steps[k].Stop? {
        FlushedHas((d: Destination) => EventsIn(Since(run, steps, limits, k, d)), steps[k].order, i - |run[k].handed|);
      }
    }
  }
}
