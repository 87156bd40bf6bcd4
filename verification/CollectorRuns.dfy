/** What every run of a collector worker keeps: the two indexes of the trace cache agree, no trace in the
    cache has been sent, every span is in exactly one place, every trace is decided exactly once. */
module CollectorSafety {
  import opened Options
  import opened Spans
  import opened Recency
  import opened Decisions
  import opened Deadlines
  import opened Collector

  ghost predicate IndexesAgree(s: State) {
    && s.queue.Keys == s.live.Keys
    && forall id :: id in s.live ==> s.live[id].id == id && s.queue[id] == s.live[id].sendBy
  }

  ghost predicate NoneSent(s: State) {
    forall id :: id in s.live ==> !s.live[id].sent
  }

  ghost predicate SpansAtHome(s: State) {
    forall id, i :: id in s.live && 0 <= i < |s.live[id].spans| ==> s.live[id].spans[i].traceId == id
  }

  /** The shape of the trace cache between steps. */
  ghost predicate Shaped(s: State) {
    IndexesAgree(s) && NoneSent(s) && SpansAtHome(s)
  }

  function OfSendables(q: seq<Sendable>): seq<Span> {
    if q == [] then [] else OfSendables(q[..|q| - 1]) + q[|q| - 1].trace.spans
  }

  function OfEmissions(q: seq<Emission>): seq<Span> {
    seq(|q|, i requires 0 <= i < |q| => q[i].span)
  }

  function OfTraces(ts: seq<Trace>): seq<Span> {
    if ts == [] then [] else OfTraces(ts[..|ts| - 1]) + ts[|ts| - 1].spans
  }

  /** How often a span is in the live trace of its id. */
  ghost function LiveCount(live: map<string, Trace>, sp: Span): nat {
    if sp.traceId in live then multiset(live[sp.traceId].spans)[sp] else 0
  }

  /** How often a span has left the live traces: queued for sending, sent, or dropped. */
  ghost function GoneCount(s: State, sp: Span): nat {
    multiset(OfSendables(s.outgoing))[sp] + multiset(OfEmissions(s.emitted))[sp] + multiset(s.dropped)[sp]
  }

  /** Every span taken is in exactly one place: its live trace, in hand, in the outgoing queue, sent, or
      dropped. Spans are in hand only within a step. */
  ghost predicate Conserved(s: State, hand: multiset<Span>) {
    forall sp :: multiset(s.taken)[sp] == LiveCount(s.live, sp) + hand[sp] + GoneCount(s, sp)
  }

  /** Every trace started is live, in hand, or decided once. */
  ghost predicate DecidedOnce(s: State, hand: multiset<string>) {
    forall id :: multiset(s.created)[id]
                 == (if id in s.live then 1 else 0) + hand[id] + multiset(s.decided)[id]
  }

  ghost predicate Safe(s: State) {
    Shaped(s) && Conserved(s, multiset{}) && DecidedOnce(s, multiset{})
  }

  lemma OfEmissionsConcat(a: seq<Emission>, b: seq<Emission>)
    ensures OfEmissions(a + b) == OfEmissions(a) + OfEmissions(b)
  {
  }

  lemma {:induction false} OfSendablesConcat(a: seq<Sendable>, b: seq<Sendable>)
    ensures OfSendables(a + b) == OfSendables(a) + OfSendables(b)
  {
    if b == [] {
      assert a + b == a;
    } else {
      var n := |b| - 1;
      assert (a + b)[..|a| + n] == a + b[..n];
      OfSendablesConcat(a, b[..n]);
    }
  }

  lemma OfOneSendable(x: Sendable)
    ensures OfSendables([x]) == x.trace.spans
  {
    assert OfSendables([x][..0]) == [];
  }

  /** Deciding a trace in hand puts its spans in the outgoing queue or drops them all. */
  lemma DecidedKeeps(s: State, spans: multiset<Span>, ids: multiset<string>,
                     t: Trace, v: Verdict, reason: SendReason, now: Time, cfg: Config)
    requires Conserved(s, spans + multiset(t.spans)) && DecidedOnce(s, ids + multiset{t.id}) && !t.sent
    ensures var s' := Decided(s, t, v, reason, now, cfg);
      && Conserved(s', spans) && DecidedOnce(s', ids)
      && s'.live == s.live && s'.queue == s.queue && (Shaped(s) ==> Shaped(s'))
  {
    var x := Sendable(t.(sampleRate := v.rate, keep := v.keep, sent := true), v.keep, reason);
    OfSendablesConcat(s.outgoing, [x]);
    OfOneSendable(x);
  }

  lemma Regroup<T>(m: multiset<T>, a: seq<T>, b: seq<T>)
    ensures m + multiset(a + b) == (m + multiset(b)) + multiset(a)
  {
  }

  lemma {:induction false} DecidedAllKeeps(s: State, spans: multiset<Span>, ids: multiset<string>,
                                           ts: seq<Trace>, vs: seq<Verdict>, early: bool, now: Time, cfg: Config)
    requires |ts| == |vs| && forall t :: t in ts ==> !t.sent
    requires Conserved(s, spans + multiset(OfTraces(ts))) && DecidedOnce(s, ids + multiset(TraceIds(ts)))
    ensures var s' := DecidedAll(s, ts, vs, early, now, cfg);
      && Conserved(s', spans) && DecidedOnce(s', ids)
      && s'.live == s.live && s'.queue == s.queue && (Shaped(s) ==> Shaped(s'))
    decreases |ts|
  {
    hide Shaped, Conserved, DecidedOnce, Decided;
    if ts != [] {
      var n := |ts| - 1;
      var t := ts[n];
      assert TraceIds(ts) == TraceIds(ts[..n]) + [t.id];
      Regroup(spans, OfTraces(ts[..n]), t.spans);
      Regroup(ids, TraceIds(ts[..n]), [t.id]);
      DecidedAllKeeps(s, spans + multiset(t.spans), ids + multiset{t.id}, ts[..n], vs[..n], early, now, cfg);
      DecidedKeeps(DecidedAll(s, ts[..n], vs[..n], early, now, cfg), spans, ids,
                   t, vs[n], if early then EjectedMemsize else ReasonAt(t, cfg), now, cfg);
    } else {
      assert spans + multiset(OfTraces(ts)) == spans && ids + multiset(TraceIds(ts)) == ids;
    }
  }

  lemma LiveOfOne(live: map<string, Trace>, id: string, sp: Span)
    requires id in live && forall i :: 0 <= i < |live[id].spans| ==> live[id].spans[i].traceId == id
    ensures multiset(live[id].spans)[sp] == if sp.traceId == id then LiveCount(live, sp) else 0
  {
    assert sp in live[id].spans ==> sp.traceId == id;
  }

  /** The spans of some live traces: each is the live trace of its spans' id. */
  lemma {:induction false} HandCounts(live: map<string, Trace>, ids: seq<string>, sp: Span)
    requires forall i, j :: 0 <= i < j < |ids| ==> ids[i] != ids[j]
    requires forall id :: id in ids ==> id in live && live[id].id == id
    requires forall id, i :: id in live && 0 <= i < |live[id].spans| ==> live[id].spans[i].traceId == id
    ensures multiset(OfTraces(Traces(live, ids)))[sp] == if sp.traceId in ids then LiveCount(live, sp) else 0
  {
    hide LiveCount, OfTraces, Traces;
    if ids != [] {
      var n := |ids| - 1;
      HandCounts(live, ids[..n], sp);
      HandSnoc(live, ids);
      LiveOfOne(live, ids[n], sp);
      assert sp.traceId in ids <==> sp.traceId in ids[..n] || sp.traceId == ids[n];
    } else {
      NothingInHand(live);
    }
  }

  lemma HandSnoc(live: map<string, Trace>, ids: seq<string>)
    requires ids != [] && forall id :: id in ids ==> id in live
    ensures var n := |ids| - 1; OfTraces(Traces(live, ids)) == OfTraces(Traces(live, ids[..n])) + live[ids[n]].spans
  {
    assert Traces(live, ids)[..|ids| - 1] == Traces(live, ids[..|ids| - 1]);
  }

  lemma NothingInHand(live: map<string, Trace>)
    ensures OfTraces(Traces(live, [])) == []
  {
  }

  lemma {:induction false} DistinctCounts(ids: seq<string>, id: string)
    requires forall i, j :: 0 <= i < j < |ids| ==> ids[i] != ids[j]
    ensures multiset(ids)[id] == if id in ids then 1 else 0
  {
    if ids != [] {
      var n := |ids| - 1;
      DistinctCounts(ids[..n], id);
      assert ids == ids[..n] + [ids[n]];
    }
  }

  /** Taking live traces out of the cache puts their spans in hand. */
  lemma RemovalPutsSpansInHand(s: State, ids: seq<string>)
    requires Safe(s)
    requires forall i, j :: 0 <= i < j < |ids| ==> ids[i] != ids[j]
    requires forall id :: id in ids ==> id in s.live
    ensures Conserved(Removed(s, Elements(ids)), multiset(OfTraces(Traces(s.live, ids))))
  {
    var s' := Removed(s, Elements(ids));
    forall sp ensures LiveCount(s.live, sp) == LiveCount(s'.live, sp) + multiset(OfTraces(Traces(s.live, ids)))[sp] {
      HandCounts(s.live, ids, sp);
    }
    assert forall sp :: GoneCount(s', sp) == GoneCount(s, sp);
  }

  lemma RemovalPutsTracesInHand(s: State, ids: seq<string>)
    requires Safe(s)
    requires forall i, j :: 0 <= i < j < |ids| ==> ids[i] != ids[j]
    requires forall id :: id in ids ==> id in s.live
    ensures DecidedOnce(Removed(s, Elements(ids)), multiset(TraceIds(Traces(s.live, ids))))
  {
    hide Conserved;
    var s' := Removed(s, Elements(ids));
    assert TraceIds(Traces(s.live, ids)) == ids;
    forall id ensures (if id in s.live then 1 else 0) == (if id in s'.live then 1 else 0) + multiset(ids)[id] {
      DistinctCounts(ids, id);
    }
  }

  lemma RemovalKeepsShape(s: State, ids: seq<string>)
    requires Shaped(s) && forall id :: id in ids ==> id in s.live
    ensures Shaped(Removed(s, Elements(ids))) && |Traces(s.live, ids)| == |ids|
    ensures forall t :: t in Traces(s.live, ids) ==> !t.sent
  {
  }

  /** Taking some live traces out of the cache and deciding them all keeps the state safe. */
  lemma BatchKeeps(s: State, ids: seq<string>, vs: seq<Verdict>, early: bool, now: Time, cfg: Config)
    requires Safe(s) && |vs| == |ids|
    requires forall i, j :: 0 <= i < j < |ids| ==> ids[i] != ids[j]
    requires forall id :: id in ids ==> id in s.live
    ensures Safe(DecidedAll(Removed(s, Elements(ids)), Traces(s.live, ids), vs, early, now, cfg))
  {
    hide Shaped, Conserved, DecidedOnce, DecidedAll, OfTraces, TraceIds, Removed, Traces;
    var ts, s1 := Traces(s.live, ids), Removed(s, Elements(ids));
    RemovalPutsSpansInHand(s, ids);
    RemovalPutsTracesInHand(s, ids);
    RemovalKeepsShape(s, ids);
    assert multiset{} + multiset(OfTraces(ts)) == multiset(OfTraces(ts));
    assert multiset{} + multiset(TraceIds(ts)) == multiset(TraceIds(ts));
    DecidedAllKeeps(s1, multiset{}, multiset{}, ts, vs, early, now, cfg);
  }

  lemma {:induction false} VictimsAreUnsent(ts: seq<Trace>, bytes: int)
    requires forall t :: t in ts ==> !t.sent
    ensures Victims(ts, bytes) <= ts
  {
    if ts != [] && ts[0].dataSize <= bytes {
      VictimsAreUnsent(ts[1..], bytes - ts[0].dataSize);
      assert ts == [ts[0]] + ts[1..];
    }
  }

  function TotalSize(ts: seq<Trace>): nat {
    if ts == [] then 0 else ts[0].dataSize + TotalSize(ts[1..])
  }

  /** The victims are the fewest of the first traces that together are larger than the budget, or all. */
  lemma {:induction false} VictimsFreeEnough(ts: seq<Trace>, bytes: int, k: nat)
    requires (forall t :: t in ts ==> !t.sent) && k <= |ts|
    ensures k < |Victims(ts, bytes)| && k > 0 ==> TotalSize(ts[..k]) <= bytes
    ensures k == |Victims(ts, bytes)| && k < |ts| ==> TotalSize(ts[..k]) > bytes
  {
    if ts != [] && k > 0 {
      assert ts[..k][1..] == ts[1..][..k - 1] && ts[..k][0] == ts[0];
      if ts[0].dataSize <= bytes {
        VictimsFreeEnough(ts[1..], bytes - ts[0].dataSize, k - 1);
      }
      if k == 1 {
        assert TotalSize(ts[..1][1..]) == 0;
      }
    }
  }

  lemma {:induction false} DecidingKeepsLive(s: State, ts: seq<Trace>, vs: seq<Verdict>, early: bool, now: Time,
                                          cfg: Config)
    requires |ts| == |vs|
    ensures var s' := DecidedAll(s, ts, vs, early, now, cfg); s'.live == s.live && s'.queue == s.queue
    decreases |ts|
  {
    if ts != [] {
      DecidingKeepsLive(s, ts[..|ts| - 1], vs[..|ts| - 1], early, now, cfg);
    }
  }

  /** Deciding traces does not look at the cache, so it may come before or after their removal. */
  lemma {:induction false} DecidedAllCommutes(s: State, ts: seq<Trace>, vs: seq<Verdict>, early: bool, now: Time,
                                              cfg: Config, ids: set<string>)
    requires |ts| == |vs|
    ensures Removed(DecidedAll(s, ts, vs, early, now, cfg), ids) == DecidedAll(Removed(s, ids), ts, vs, early, now, cfg)
    decreases |ts|
  {
    if ts != [] {
      var n := |ts| - 1;
      DecidedAllCommutes(s, ts[..n], vs[..n], early, now, cfg, ids);
    }
  }

  /** The traces that an event decides, in order. */
  function Batch(s: State, e: Event, s': State): seq<Trace>
    requires Next(s, e, s')
  {
    match e
    case Tick(_, _, due, _) => Traces(s.live, due)
    case Early(_, _, order, bytes, _) => Victims(Traces(s.live, order), bytes)
    case _ => []
  }

  function VerdictsOf(e: Event): seq<Verdict> {
    match e
    case Tick(_, _, _, verdicts) => verdicts
    case Early(_, _, _, _, verdicts) => verdicts
    case _ => []
  }

  /** The ids that a batch of decisions keeps, or does not keep. */
  function IdsWith(ts: seq<Trace>, vs: seq<Verdict>, keep: bool): set<string>
    requires |ts| == |vs|
  {
    set i | 0 <= i < |ts| && vs[i].keep == keep :: ts[i].id
  }

  /** Live traces of different ids, none of them sent. */
  ghost predicate Undecided(s: State, ts: seq<Trace>) {
    && (forall i, j :: 0 <= i < j < |ts| ==> ts[i].id != ts[j].id)
    && forall t :: t in ts ==> t.id in s.live && t == s.live[t.id] && !t.sent
  }

  /** A tick and an early ejection alike take unsent live traces out of the cache and decide them. */
  lemma BatchStep(s: State, e: Event, s': State)
    requires Shaped(s) && (e.Tick? || e.Early?) && Next(s, e, s')
    ensures var ts := Batch(s, e, s');
      && |ts| == |VerdictsOf(e)| && Undecided(s, ts)
      && s' == DecidedAll(Removed(s, Elements(TraceIds(ts))), ts, VerdictsOf(e), e.Early?, e.now, e.cfg)
  {
    hide DecidedAll, Victims;
    var ts := Batch(s, e, s');
    if e.Tick? {
      assert TraceIds(ts) == e.due;
    } else {
      var all := Traces(s.live, e.order);
      VictimsAreUnsent(all, e.bytes);
      assert ts == all[..|ts|];
      DecidedAllCommutes(s, ts, e.verdicts, true, e.now, e.cfg, Elements(TraceIds(ts)));
    }
  }

  lemma UndecidedApart(s: State, ts: seq<Trace>)
    requires Shaped(s) && Undecided(s, ts)
    ensures forall t, sp :: t in ts && sp in t.spans ==> sp.traceId == t.id
    ensures forall t :: t in ts ==> !t.sent && t.id !in Removed(s, Elements(TraceIds(ts))).live
  {
    forall t | t in ts ensures !t.sent && t.id !in Removed(s, Elements(TraceIds(ts))).live {
      var i :| 0 <= i < |ts| && ts[i] == t;
      assert TraceIds(ts)[i] == t.id;
    }
  }

  /** What a tick and an early ejection hand to the decisions. */
  lemma BatchReady(s: State, e: Event, s': State)
    requires Safe(s) && Next(s, e, s') && (e.Tick? || e.Early?)
    ensures var ts, s1 := Batch(s, e, s'), Removed(s, Elements(TraceIds(Batch(s, e, s'))));
      && |ts| == |VerdictsOf(e)| && (forall i, j :: 0 <= i < j < |ts| ==> ts[i].id != ts[j].id)
      && (forall t, sp :: t in ts && sp in t.spans ==> sp.traceId == t.id)
      && (forall t :: t in ts ==> !t.sent && t.id !in s1.live)
      && s1.memory == s.memory && s' == DecidedAll(s1, ts, VerdictsOf(e), e.Early?, e.now, e.cfg)
  {
    BatchStep(s, e, s');
    UndecidedApart(s, Batch(s, e, s'));
  }

  lemma TickKeeps(s: State, e: Event, s': State)
    requires Safe(s) && e.Tick? && Next(s, e, s')
    ensures Safe(s')
  {
    hide Safe;
    BatchKeeps(s, e.due, e.verdicts, false, e.now, e.cfg);
  }

  lemma EarlyKeeps(s: State, e: Event, s': State)
    requires Safe(s) && e.Early? && Next(s, e, s')
    ensures Safe(s')
  {
    var all := Traces(s.live, e.order);
    var ts := Victims(all, e.bytes);
    VictimsAreUnsent(all, e.bytes);
    var ids := e.order[..|ts|];
    assert ts == Traces(s.live, ids) && TraceIds(ts) == ids;
    hide Safe, DecidedAll, Victims;
    DecidedAllCommutes(s, ts, e.verdicts, true, e.now, e.cfg, Elements(ids));
    BatchKeeps(s, ids, e.verdicts, true, e.now, e.cfg);
  }

  lemma ObeyedKeeps(s: State, answer: Answer, sp: Span, cfg: Config)
    requires !answer.Unknown?
    requires Shaped(s)
    requires Conserved(s, multiset{sp}) && DecidedOnce(s, multiset{})
    ensures Safe(Obeyed(s, answer, sp, cfg))
  {
    var s' := Obeyed(s, answer, sp, cfg);
    if s'.emitted != s.emitted {
      var x := s'.emitted[|s.emitted|];
      assert s'.emitted == s.emitted + [x] && OfEmissions([x]) == [sp];
      OfEmissionsConcat(s.emitted, [x]);
    }
    forall x: Span ensures GoneCount(s', x) == GoneCount(s, x) + multiset{sp}[x] {
    }
  }

  lemma StartedKeeps(s: State, sp: Span, now: Time, cfg: Config, hand: multiset<Span>)
    requires Shaped(s) && sp.traceId !in s.live
    requires Conserved(s, hand) && DecidedOnce(s, multiset{})
    ensures var s' := Started(s, sp, now, cfg);
      Shaped(s') && Conserved(s', hand) && DecidedOnce(s', multiset{})
  {
    var s' := Started(s, sp, now, cfg);
    assert forall x :: LiveCount(s'.live, x) == LiveCount(s.live, x);
    SameGone(s, s');
  }

  lemma AbsorbedKeeps(s: State, sp: Span, now: Time, cfg: Config)
    requires Shaped(s) && sp.traceId in s.live
    requires Conserved(s, multiset{sp}) && DecidedOnce(s, multiset{})
    ensures Safe(Absorbed(s, sp, now, cfg))
  {
    hide Shaped, Extended, LiveCount, GoneCount;
    AbsorbedShape(s, sp, now, cfg);
    var s' := Absorbed(s, sp, now, cfg);
    LiveCountGrows(s.live, sp, s'.live[sp.traceId]);
    SameGone(s, s');
  }

  lemma LiveCountGrows(live: map<string, Trace>, sp: Span, t: Trace)
    requires sp.traceId in live && t.spans == live[sp.traceId].spans + [sp]
    ensures forall x :: LiveCount(live[sp.traceId := t], x) == LiveCount(live, x) + multiset{sp}[x]
  {
  }

  lemma SameGone(s: State, s': State)
    requires s.outgoing == s'.outgoing && s.emitted == s'.emitted && s.dropped == s'.dropped
    ensures forall x :: GoneCount(s, x) == GoneCount(s', x)
  {
  }

  lemma AbsorbedShape(s: State, sp: Span, now: Time, cfg: Config)
    requires Shaped(s) && sp.traceId in s.live
    ensures var s' := Absorbed(s, sp, now, cfg);
      Shaped(s') && s'.live[sp.traceId].spans == s.live[sp.traceId].spans + [sp]
  {
  }

  lemma ArrivalPutsInHand(s: State, sp: Span, memory: Book)
    requires Safe(s)
    ensures var s' := s.(taken := s.taken + [sp], memory := memory);
      && Shaped(s') && (sp.traceId in s.live ==> !s.live[sp.traceId].sent)
      && Conserved(s', multiset{sp}) && DecidedOnce(s', multiset{})
  {
    SameGone(s, s.(taken := s.taken + [sp], memory := memory));
  }

  lemma ReceiveKeeps(s: State, sp: Span, now: Time, cfg: Config, collides: bool)
    requires Safe(s)
    ensures Safe(Processed(s, sp, now, cfg, collides))
  {
    var (answer, memory) := s.memory.Asked(sp.traceId, sp.annotation, now, collides);
    var s0 := s.(taken := s.taken + [sp], memory := if sp.traceId in s.live then s.memory else memory);
    ArrivalPutsInHand(s, sp, s0.memory);
    hide Shaped, Conserved, DecidedOnce, Absorbed, Started, Obeyed;
    if sp.traceId in s.live {
      AbsorbedKeeps(s0, sp, now, cfg);
    } else if answer.Unknown? {
      StartedKeeps(s0, sp, now, cfg, multiset{sp});
      AbsorbedKeeps(Started(s0, sp, now, cfg), sp, now, cfg);
    } else {
      ObeyedKeeps(s0, answer, sp, cfg);
    }
  }

  lemma SendMovesSpans(s: State, cfg: Config)
    requires s.outgoing != []
    ensures forall x :: GoneCount(Transmitted(s, cfg), x) == GoneCount(s, x)
  {
    var s' := Transmitted(s, cfg);
    var sent := s'.emitted[|s.emitted|..];
    assert s'.emitted == s.emitted + sent && OfEmissions(sent) == s.outgoing[0].trace.spans;
    OfEmissionsConcat(s.emitted, sent);
    assert s.outgoing == [s.outgoing[0]] + s'.outgoing;
    OfSendablesConcat([s.outgoing[0]], s'.outgoing);
    OfOneSendable(s.outgoing[0]);
  }

  lemma SendKeeps(s: State, cfg: Config)
    requires Safe(s) && s.outgoing != []
    ensures Safe(Transmitted(s, cfg))
  {
    SendMovesSpans(s, cfg);
    hide GoneCount, LiveCount;
  }

  lemma StepKeeps(s: State, e: Event, s': State)
    requires Safe(s) && Next(s, e, s')
    ensures Safe(s')
  {
    match e
    case Receive(now, cfg, sp, collides) => ReceiveKeeps(s, sp, now, cfg, collides);
    case Tick(_, _, _, _) => TickKeeps(s, e, s');
    case Early(_, _, _, _, _) => EarlyKeeps(s, e, s');
    case Send(_, cfg) => SendKeeps(s, cfg);
    case _ => SameGone(s, s');
  }

  /** In every run of a worker every reachable state is safe: no span is lost or duplicated, the indexes
      agree, no cached trace was sent before, and each trace started is live or decided once. */
  lemma {:induction false} RunIsSafe(run: seq<State>, events: seq<Event>, keptSize: int)
    requires IsRun(run, events) && run[0] == Init(keptSize)
    ensures forall i :: 0 <= i < |run| ==> Safe(run[i])
  {
    assert Safe(run[0]);
    for i := 0 to |events|
      invariant forall j :: 0 <= j <= i ==> Safe(run[j])
    {
      StepKeeps(run[i], events[i], run[i + 1]);
    }
  }
}

/** No trace waits forever: once its deadline has strictly passed, only the traces that were due no later
    can be taken before it. */
module CollectorProgress {
  import opened Options
  import opened Spans
  import opened Decisions
  import opened Deadlines
  import opened Collector
  import opened CollectorSafety

  /** The live traces, other than `id`, whose deadline is d or earlier. */
  ghost function Rivals(s: State, id: string, d: Time): set<string> {
    set u | u in s.live && u != id && s.live[u].sendBy <= d
  }

  predicate Limited(e: Event, m: nat) {
    e.Tick? ==> e.cfg.maxExpired <= 0 || e.cfg.maxExpired >= m
  }

  /** From s to s' the deadline of the trace is kept, or brought forward, but not to before now. */
  ghost predicate DeadlineHeld(s: State, s': State, id: string, now: Time) {
    id in s'.live ==>
      && (id in s.live ==> s'.live[id].sendBy <= s.live[id].sendBy)
      && (id !in s.live || s'.live[id].sendBy != s.live[id].sendBy ==> s'.live[id].sendBy >= now)
  }

  lemma SpanHoldsDeadlines(s: State, sp: Span, now: Time, cfg: Config, collides: bool, id: string)
    requires Safe(s)
    ensures DeadlineHeld(s, Processed(s, sp, now, cfg, collides), id, now)
  {
    hide Book.Asked, Conserved, DecidedOnce;
    if sp.traceId !in s.live {
      var (answer, memory) := s.memory.Asked(sp.traceId, sp.annotation, now, collides);
    }
  }

  /** No deadline is moved back, and none is set before the current time. */
  lemma DeadlinesNeverGetLater(s: State, e: Event, s': State, id: string)
    requires Safe(s) && Next(s, e, s') && id in s'.live
    ensures id in s.live ==> s'.live[id].sendBy <= s.live[id].sendBy
    ensures id !in s.live || s'.live[id].sendBy != s.live[id].sendBy ==> s'.live[id].sendBy >= e.now
  {
    hide Safe, Processed;
    match e
    case Receive(now, cfg, sp, collides) =>
      SpanHoldsDeadlines(s, sp, now, cfg, collides, id);
    case Tick(now, cfg, due, verdicts) =>
      DecidingKeepsLive(Removed(s, Elements(due)), Traces(s.live, due), verdicts, false, now, cfg);
    case Early(now, cfg, order, bytes, verdicts) =>
      DecidingKeepsLive(s, Victims(Traces(s.live, order), bytes), verdicts, true, now, cfg);
    case _ =>
  }

  /** A tick that leaves a due trace behind takes a full batch of its rivals. */
  lemma TickTakesRivals(s: State, e: Event, s': State, id: string, m: nat)
    requires Safe(s) && e.Tick? && Next(s, e, s') && Limited(e, m)
    requires id in s.live && id in s'.live && s.live[id].sendBy <= e.now
    ensures |Rivals(s', id, s.live[id].sendBy)| + m <= |Rivals(s, id, s.live[id].sendBy)|
  {
    DecidingKeepsLive(Removed(s, Elements(e.due)), Traces(s.live, e.due), e.verdicts, false, e.now, e.cfg);
    assert s'.live == s.live - Elements(e.due);
    hide Next, DecidedAll, Conserved, DecidedOnce, SpansAtHome, NoneSent;
    TakenAreRivals(s, e.now, e.cfg.maxExpired, e.due, s', id);
    ElementsCount(e.due);
  }

  lemma TakenAreRivals(s: State, now: Time, max: int, due: seq<string>, s': State, id: string)
    requires IndexesAgree(s) && IsTake(s.queue, now, max, {}, due) && s'.live == s.live - Elements(due)
    requires id in s.live && id !in due && s.live[id].sendBy <= now
    ensures max > 0 && |due| == max
    ensures |Rivals(s', id, s.live[id].sendBy)| + |Elements(due)| == |Rivals(s, id, s.live[id].sendBy)|
  {
    var d := s.live[id].sendBy;
    var taken, before := Elements(due), Rivals(s, id, d);
    assert s.queue[id] == d;
    assert taken <= before by {
      forall t | t in taken ensures t in before {
        assert s.queue[t] <= s.queue[id];
      }
    }
    hide IsTake;
    assert Rivals(s', id, d) == before - taken;
  }

  /** Spans, early ejections and upkeep give a trace no new rival, and do not move its deadline, once that has
      passed. */
  lemma StepAddsNoRivals(s: State, e: Event, s': State, id: string)
    requires Safe(s) && Next(s, e, s') && id in s.live && id in s'.live && s.live[id].sendBy < e.now
    ensures s'.live[id].sendBy == s.live[id].sendBy
    ensures |Rivals(s', id, s.live[id].sendBy)| <= |Rivals(s, id, s.live[id].sendBy)|
  {
    var d := s.live[id].sendBy;
    DeadlinesNeverGetLater(s, e, s', id);
    forall u | u in Rivals(s', id, d) ensures u in Rivals(s, id, d) {
      DeadlinesNeverGetLater(s, e, s', u);
    }
    Subset(Rivals(s', id, d), Rivals(s, id, d));
  }

  function Ticks(events: seq<Event>): nat {
    if events == [] then 0 else (if events[0].Tick? then 1 else 0) + Ticks(events[1..])
  }

  lemma Times(t: nat, m: nat)
    ensures (t + 1) * m == m + t * m
  {
  }

  lemma Enough(t: nat, k: nat, m: nat)
    requires m > 0 && t >= k / m + 1
    ensures t * m > k
  {
    assert t * m >= (k / m + 1) * m;
  }

  /** While a trace past its deadline stays, every tick uses up m of its rivals. */
  lemma {:induction false} TicksAreUsedUp(run: seq<State>, events: seq<Event>, id: string, m: nat)
    requires IsRun(run, events) && Safe(run[0])
    requires forall i :: 0 <= i < |events| ==> Limited(events[i], m)
    requires forall i :: 0 <= i < |run| ==> id in run[i].live
    requires |events| > 0 ==> run[0].live[id].sendBy < events[0].now
    ensures Ticks(events) * m <= |Rivals(run[0], id, run[0].live[id].sendBy)|
  {
    hide Next, Safe, Rivals, Limited;
    if |events| > 0 {
      var s, e, s' := run[0], events[0], run[1];
      assert Next(run[0], events[0], run[1]);
      StepKeeps(s, e, s');
      StepAddsNoRivals(s, e, s', id);
      if e.Tick? {
        TickTakesRivals(s, e, s', id, m);
      }
      TicksAreUsedUp(run[1..], events[1..], id, m);
      Times(Ticks(events[1..]), m);
    }
  }

  /** With a batch limit of at least m, a trace whose deadline has strictly passed and that has k rivals
      leaves the cache within k / m + 1 ticks, whatever else happens in between. */
  lemma NoStarvation(run: seq<State>, events: seq<Event>, id: string, m: nat)
    requires IsRun(run, events) && Safe(run[0]) && m > 0
    requires forall i :: 0 <= i < |events| ==> Limited(events[i], m)
    requires id in run[0].live && |events| > 0 && run[0].live[id].sendBy < events[0].now
    requires Ticks(events) >= |Rivals(run[0], id, run[0].live[id].sendBy)| / m + 1
    ensures exists i :: 0 <= i < |run| && id !in run[i].live
  {
    hide Next, Safe, Rivals, Limited, Ticks;
    var k := |Rivals(run[0], id, run[0].live[id].sendBy)|;
    if forall i :: 0 <= i < |run| ==> id in run[i].live {
      TicksAreUsedUp(run, events, id, m);
      Enough(Ticks(events), k, m);
    }
  }
}
