/** What leaves a worker: the rate and the counts that each span carries, and the traces that a batch of decisions hands
    over. */
module CollectorEmissions {
  import opened Options
  import opened Spans
  import opened Recency
  import opened Decisions
  import opened Deadlines
  import opened Collector
  import opened CollectorSafety
  import opened CollectorMemory
  import opened CollectorCauses

  ghost predicate ToldOfAll(m: Marks, sp: Span, cfg: Config, spans: seq<Span>) {
    Told(m, sp, cfg, |spans|, NumberOf(spans, Plain), NumberOf(spans, SpanEvent), NumberOf(spans, Link))
  }

  /** The sender emits every span of the oldest trace, in order, weighed with the rate of the trace outside of a dry
      run, and tells the root span how many spans of each kind the trace has. */
  lemma SendEmits(s: State, e: Event, s': State)
    requires e.Send? && Next(s, e, s')
    ensures s.outgoing != [] && s'.outgoing == s.outgoing[1..] && s'.dropped == s.dropped
    ensures var spans := s.outgoing[0].trace.spans;
      |s'.emitted| == |s.emitted| + |spans| && s'.emitted[..|s.emitted|] == s.emitted
    ensures var t, n := s.outgoing[0].trace, |s.emitted|;
      forall i :: 0 <= i < |t.spans| ==>
        var x := s'.emitted[n + i];
        && x.span == t.spans[i] && !x.late && ToldOfAll(x.marks, x.span, e.cfg, t.spans)
        && x.sampleRate == if e.cfg.dryRun then OwnRate(x.span) else Weighed(x.span, t.sampleRate)
  {
    forall sp {
      OneEmission(s.outgoing[0].trace, sp, e.cfg);
    }
    hide NumberOf, CountsOf, MergedRate, MarksFor, Weighed, ToldOfAll, OwnRate;
  }

  lemma OneEmission(t: Trace, sp: Span, cfg: Config)
    ensures ToldOfAll(MarksFor(sp, t.DescendantCount(), CountsOf(t.spans), cfg), sp, cfg, t.spans)
    ensures MergedRate(sp.sampleRate, t.sampleRate, cfg.dryRun)
            == if cfg.dryRun then OwnRate(sp) else Weighed(sp, t.sampleRate)
  {
    CountsAre(t.spans);
    hide NumberOf, CountsOf;
  }

  /** A span of a trace that is not live: sent as the kept record says, which counts the span, if the trace is
      remembered as kept and not as dropped; dropped, or in a dry run sent as it is, if it is taken for dropped. */
  lemma LateEmits(s: State, e: Event, s': State)
    requires e.Receive? && e.sp.traceId !in s.live && Next(s, e, s')
    ensures var id := e.sp.traceId;
      var taken := s.memory.RecentlyDropped(id, e.now) || id in s.memory.drop.current || e.collides;
      if taken then
        if e.cfg.dryRun then s'.emitted == s.emitted + [Emission(e.sp, true, e.sp.sampleRate, NoMarks)]
                             && s'.dropped == s.dropped
        else s'.emitted == s.emitted && s'.dropped == s.dropped + [e.sp]
      else if Has(s.memory.kept, id) then
        var r := Lookup(s.memory.kept, id);
        && s'.dropped == s.dropped && |s'.emitted| == |s.emitted| + 1 && s'.emitted[..|s.emitted|] == s.emitted
        && var x := s'.emitted[|s.emitted|];
           && x.span == e.sp && x.late
           && x.sampleRate == (if e.cfg.dryRun then OwnRate(e.sp) else Weighed(e.sp, r.rate))
           && Told(x.marks, e.sp, e.cfg, r.total + 1, r.counts.spans + if e.sp.annotation.Plain? then 1 else 0,
                   r.counts.events + if e.sp.annotation.SpanEvent? then 1 else 0,
                   r.counts.links + if e.sp.annotation.Link? then 1 else 0)
      else s'.emitted == s.emitted && s'.dropped == s.dropped && id in s'.live
  {
    hide Extended;
  }

  /** What a batch of decisions hands over: each trace that is kept, or any in a dry run, with its verdict and a
      reason. */
  function HandedOn(ts: seq<Trace>, vs: seq<Verdict>, early: bool, cfg: Config): seq<Sendable>
    requires |ts| == |vs|
  {
    if ts == [] then []
    else
      var t, v := ts[0], vs[0];
      var decided := Trace(t.id, t.arrival, t.sendBy, t.root, t.spans, t.dataSize, v.rate, v.keep, true);
      (if v.keep || cfg.dryRun then [Sendable(decided, v.keep, Why(t, early, cfg))] else [])
      + HandedOn(ts[1..], vs[1..], early, cfg)
  }

  function Why(t: Trace, early: bool, cfg: Config): SendReason {
    var limit, count := cfg.spanLimit % 0x1_0000_0000, |t.spans| % 0x1_0000_0000;
    if early then EjectedMemsize else if t.root != None then GotRoot
    else if 0 < limit < count then SpanLimit else Expired
  }

  /** And the spans that it drops. */
  function GivenUp(ts: seq<Trace>, vs: seq<Verdict>, cfg: Config): seq<Span>
    requires |ts| == |vs|
  {
    if ts == [] then []
    else (if vs[0].keep || cfg.dryRun then [] else ts[0].spans) + GivenUp(ts[1..], vs[1..], cfg)
  }

  lemma {:induction false} HandedSnoc(ts: seq<Trace>, vs: seq<Verdict>, early: bool, cfg: Config, t: Trace, v: Verdict)
    requires |ts| == |vs|
    ensures HandedOn(ts + [t], vs + [v], early, cfg) == HandedOn(ts, vs, early, cfg) + HandedOn([t], [v], early, cfg)
    ensures GivenUp(ts + [t], vs + [v], cfg) == GivenUp(ts, vs, cfg) + GivenUp([t], [v], cfg)
  {
    hide Why;
    if ts == [] {
      assert [] + [t] == [t] && [] + [v] == [v];
    } else {
      HandedSnoc(ts[1..], vs[1..], early, cfg, t, v);
      assert (ts + [t])[1..] == ts[1..] + [t] && (vs + [v])[1..] == vs[1..] + [v];
    }
  }

  lemma DecidedHands(s: State, t: Trace, v: Verdict, early: bool, now: Time, cfg: Config)
    requires !t.sent
    ensures var s' := Decided(s, t, v, if early then EjectedMemsize else ReasonAt(t, cfg), now, cfg);
      && s'.outgoing == s.outgoing + HandedOn([t], [v], early, cfg) && s'.dropped == s.dropped + GivenUp([t], [v], cfg)
      && s'.decided == s.decided + [t.id] && s'.emitted == s.emitted
  {
    assert HandedOn([t][1..], [v][1..], early, cfg) == [] && GivenUp([t][1..], [v][1..], cfg) == [];
  }

  lemma {:induction false} DecidedAllHands(s: State, ts: seq<Trace>, vs: seq<Verdict>, early: bool, now: Time,
                                           cfg: Config)
    requires |ts| == |vs| && forall t :: t in ts ==> !t.sent
    ensures var s' := DecidedAll(s, ts, vs, early, now, cfg);
      && s'.outgoing == s.outgoing + HandedOn(ts, vs, early, cfg) && s'.dropped == s.dropped + GivenUp(ts, vs, cfg)
      && s'.decided == s.decided + TraceIds(ts) && s'.emitted == s.emitted
    decreases |ts|
  {
    if ts == [] {
      NothingHanded(early, cfg);
      assert TraceIds(ts) == [];
    } else {
      var n := |ts| - 1;
      OneMore(s, ts, vs, early, now, cfg);
      hide *;
      DecidedAllHands(s, ts[..n], vs[..n], early, now, cfg);
      DecidedHands(DecidedAll(s, ts[..n], vs[..n], early, now, cfg), ts[n], vs[n], early, now, cfg);
      HandedSnoc(ts[..n], vs[..n], early, cfg, ts[n], vs[n]);
      Joined(s.outgoing, HandedOn(ts[..n], vs[..n], early, cfg), HandedOn([ts[n]], [vs[n]], early, cfg));
      Joined(s.dropped, GivenUp(ts[..n], vs[..n], cfg), GivenUp([ts[n]], [vs[n]], cfg));
      Joined(s.decided, TraceIds(ts[..n]), [ts[n].id]);
    }
  }

  lemma Joined<T>(a: seq<T>, b: seq<T>, c: seq<T>)
    ensures (a + b) + c == a + (b + c)
  {
  }

  lemma OneMore(s: State, ts: seq<Trace>, vs: seq<Verdict>, early: bool, now: Time, cfg: Config)
    requires |ts| == |vs| && ts != []
    ensures var n := |ts| - 1;
      && DecidedAll(s, ts, vs, early, now, cfg)
         == Decided(DecidedAll(s, ts[..n], vs[..n], early, now, cfg), ts[n], vs[n],
                    if early then EjectedMemsize else ReasonAt(ts[n], cfg), now, cfg)
      && TraceIds(ts) == TraceIds(ts[..n]) + [ts[n].id]
      && ts == ts[..n] + [ts[n]] && vs == vs[..n] + [vs[n]]
  {
    hide Decided, ReasonAt;
  }

  lemma NothingHanded(early: bool, cfg: Config)
    ensures HandedOn([], [], early, cfg) == [] && GivenUp([], [], cfg) == []
  {
  }

  /** A tick or an early ejection hands over, in order, what it keeps, each trace with the rate of its verdict and the
      reason, and drops the spans of the rest; in a dry run it hands all over. */
  lemma BatchHands(s: State, e: Event, s': State)
    requires Safe(s) && (e.Tick? || e.Early?) && Next(s, e, s')
    ensures var ts := Batch(s, e, s');
      && |ts| == |VerdictsOf(e)| && s'.outgoing == s.outgoing + HandedOn(ts, VerdictsOf(e), e.Early?, e.cfg)
      && s'.dropped == s.dropped + GivenUp(ts, VerdictsOf(e), e.cfg) && s'.emitted == s.emitted
      && s'.decided == s.decided + TraceIds(ts)
  {
    BatchReady(s, e, s');
    var ts := Batch(s, e, s');
    var s1 := Removed(s, Elements(TraceIds(ts)));
    assert s1.outgoing == s.outgoing && s1.dropped == s.dropped && s1.emitted == s.emitted && s1.decided == s.decided;
    hide *;
    DecidedAllHands(s1, ts, VerdictsOf(e), e.Early?, e.now, e.cfg);
  }

  /** The verdicts that were made, by trace id, and the rate at which each trace was last kept. */
  datatype Rates = Rates(made: set<(string, Verdict)>, latest: map<string, nat>)

  ghost function After(r: Rates, ts: seq<Trace>, vs: seq<Verdict>): Rates
    requires |ts| == |vs|
  {
    if ts == [] then r
    else
      var n := |ts| - 1;
      var before := After(r, ts[..n], vs[..n]);
      Rates(before.made + {(ts[n].id, vs[n])},
            if vs[n].keep then before.latest[ts[n].id := vs[n].rate] else before.latest)
  }

  /** Those of the first n events of a run. */
  ghost function RatesBy(run: seq<State>, events: seq<Event>, n: nat): Rates
    requires IsRun(run, events) && n <= |events|
  {
    if n == 0 then Rates({}, map[])
    else
      assert Next(run[n - 1], events[n - 1], run[n]);
      After(RatesBy(run, events, n - 1), Batch(run[n - 1], events[n - 1], run[n]), VerdictsOf(events[n - 1]))
  }

  /** A trace handed over has its verdict; a kept record has the rate at which its trace was last kept, in 32 bits. */
  ghost predicate Rated(s: State, r: Rates) {
    && s.memory.Valid()
    && (forall x :: x in s.outgoing ==> (x.trace.id, Verdict(x.trace.sampleRate, x.shouldSend)) in r.made)
    && (forall i :: 0 <= i < |s.memory.kept| ==> RecordRated(s.memory.kept[i], r))
  }

  ghost predicate RecordRated(entry: (string, KeptRecord), r: Rates) {
    entry.0 in r.latest && entry.1.rate == r.latest[entry.0] % 0x1_0000_0000
  }

  lemma DecidedIsRated(s: State, t: Trace, v: Verdict, reason: SendReason, now: Time, cfg: Config, r: Rates)
    requires Rated(s, r) && !t.sent
    ensures Rated(Decided(s, t, v, reason, now, cfg), After(r, [t], [v]))
  {
    var r' := After(r, [t], [v]);
    var record := t.(sampleRate := v.rate, keep := v.keep, sent := true).Record();
    AfterOne(r, t, v);
    if v.keep {
      AddedIsBoundedRecency(s.memory.kept, s.memory.keptSize, t.id, record);
      AddedIsRated(s.memory.kept, s.memory.keptSize, t.id, record, r, r');
    }
    assert forall i :: 0 <= i < |s.memory.kept| && s.memory.kept[i].0 != t.id ==> RecordRated(s.memory.kept[i], r');
  }

  lemma AfterOne(r: Rates, t: Trace, v: Verdict)
    ensures After(r, [t], [v])
            == Rates(r.made + {(t.id, v)}, if v.keep then r.latest[t.id := v.rate] else r.latest)
  {
    assert After(r, [t][..0], [v][..0]) == r;
  }

  lemma AddedIsRated(c: Order<string, KeptRecord>, size: int, k: string, v: KeptRecord, r: Rates, r': Rates)
    requires DistinctKeys(c) && forall i :: 0 <= i < |c| ==> RecordRated(c[i], r)
    requires k in r'.latest && v.rate == r'.latest[k] % 0x1_0000_0000
    requires forall id :: id in r.latest && id != k ==> id in r'.latest && r'.latest[id] == r.latest[id]
    ensures forall i :: 0 <= i < |Added(c, size, k, v)| ==> RecordRated(Added(c, size, k, v)[i], r')
  {
    var w := Without(c, k);
    assert forall i :: 0 <= i < |w| ==> w[i] in c && w[i].0 != k;
    assert Added(c, size, k, v) == Truncate([(k, v)] + w, size);
  }

  lemma {:induction false} DecidedAllIsRated(s: State, ts: seq<Trace>, vs: seq<Verdict>, early: bool, now: Time,
                                             cfg: Config, r: Rates)
    requires |ts| == |vs| && Rated(s, r) && forall t :: t in ts ==> !t.sent
    ensures Rated(DecidedAll(s, ts, vs, early, now, cfg), After(r, ts, vs))
    decreases |ts|
  {
    hide Rated;
    if ts != [] {
      var n := |ts| - 1;
      DecidedAllIsRated(s, ts[..n], vs[..n], early, now, cfg, r);
      OneMore(s, ts, vs, early, now, cfg);
      AfterSnoc(r, ts, vs);
      hide *;
      DecidedIsRated(DecidedAll(s, ts[..n], vs[..n], early, now, cfg), ts[n], vs[n],
                     if early then EjectedMemsize else ReasonAt(ts[n], cfg), now, cfg, After(r, ts[..n], vs[..n]));
    }
  }

  lemma AfterSnoc(r: Rates, ts: seq<Trace>, vs: seq<Verdict>)
    requires |ts| == |vs| && ts != []
    ensures var n := |ts| - 1; After(r, ts, vs) == After(After(r, ts[..n], vs[..n]), [ts[n]], [vs[n]])
  {
    var n := |ts| - 1;
    AfterOne(After(r, ts[..n], vs[..n]), ts[n], vs[n]);
  }

  lemma BatchIsRated(s: State, e: Event, s': State, r: Rates)
    requires Safe(s) && (e.Tick? || e.Early?) && Next(s, e, s') && Rated(s, r)
    ensures Rated(s', After(r, Batch(s, e, s'), VerdictsOf(e)))
  {
    BatchReady(s, e, s');
    var ts := Batch(s, e, s');
    var s1 := Removed(s, Elements(TraceIds(ts)));
    assert s1.outgoing == s.outgoing && s1.memory == s.memory;
    SameRates(s, s1, r);
    hide *;
    DecidedAllIsRated(s1, ts, VerdictsOf(e), e.Early?, e.now, e.cfg, r);
  }

  lemma SameRates(s: State, s': State, r: Rates)
    requires s.memory == s'.memory && s.outgoing == s'.outgoing && Rated(s, r)
    ensures Rated(s', r)
  {
  }

  lemma AskedIsRated(b: Book, id: string, a: Annotation, now: Time, collides: bool, r: Rates)
    requires b.Valid() && forall i :: 0 <= i < |b.kept| ==> RecordRated(b.kept[i], r)
    ensures var b' := b.Asked(id, a, now, collides).1;
      b'.Valid() && forall i :: 0 <= i < |b'.kept| ==> RecordRated(b'.kept[i], r)
  {
    if Has(b.kept, id) {
      FrontKeepsOthers(b.kept, id, Lookup(b.kept, id).Counted(a), id);
      assert RecordRated(b.kept[IndexOf(b.kept, id)], r);
      var w := Without(b.kept, id);
      assert forall i :: 0 <= i < |w| ==> w[i] in b.kept;
    }
  }

  lemma SpanIsRated(s: State, e: Event, s': State, r: Rates)
    requires Safe(s) && e.Receive? && Next(s, e, s') && Rated(s, r)
    ensures Rated(s', r)
  {
    AskedIsRated(s.memory, e.sp.traceId, e.sp.annotation, e.now, e.collides, r);
    hide Book.Asked, Conserved, DecidedOnce, RecordRated, Extended, Book.Valid;
  }

  lemma UpkeepIsRated(s: State, e: Event, s': State, r: Rates)
    requires Upkeep(e) && Next(s, e, s') && Rated(s, r)
    ensures Rated(s', r)
  {
    hide RecordRated;
  }

  lemma StepIsRated(s: State, e: Event, s': State, r: Rates)
    requires Safe(s) && Next(s, e, s') && Rated(s, r)
    ensures Rated(s', After(r, Batch(s, e, s'), VerdictsOf(e)))
  {
    if e.Tick? || e.Early? {
      BatchIsRated(s, e, s', r);
    } else {
      assert After(r, Batch(s, e, s'), VerdictsOf(e)) == r;
      hide *;
      if e.Receive? {
        SpanIsRated(s, e, s', r);
      } else {
        UpkeepElse(e);
        UpkeepIsRated(s, e, s', r);
      }
    }
  }

  lemma UpkeepElse(e: Event)
    ensures Upkeep(e) <==> !e.Receive? && !e.Tick? && !e.Early?
  {
  }

  lemma {:induction false} RunIsRated(run: seq<State>, events: seq<Event>, keptSize: int, n: nat)
    requires IsRun(run, events) && run[0] == Init(keptSize) && keptSize > 0 && n <= |events|
    ensures Safe(run[n]) && Rated(run[n], RatesBy(run, events, n))
  {
    hide Next, Safe, Rated, After;
    if n == 0 {
      StartIsRated(keptSize);
    } else {
      RunSteps(run, events, n - 1);
      hide IsRun;
      RunIsRated(run, events, keptSize, n - 1);
      StepKeeps(run[n - 1], events[n - 1], run[n]);
      StepIsRated(run[n - 1], events[n - 1], run[n], RatesBy(run, events, n - 1));
    }
  }

  lemma StartIsRated(keptSize: int)
    requires keptSize > 0
    ensures Safe(Init(keptSize)) && Rated(Init(keptSize), Rates({}, map[]))
  {
    StartIsExplained(keptSize);
  }

  /** What the rate of an emission is: in a dry run the span's own, and a late span of a dropped trace is left as it is;
      else the product of the span's own and the rate of a verdict on its trace. That verdict is, for a late span, the
      last one that kept the trace, whose rate is taken in 32 bits. */
  ghost predicate RateIs(x: Emission, dryRun: bool, r: Rates) {
    var id := x.span.traceId;
    if dryRun then x.sampleRate == OwnRate(x.span) || (x.late && x.sampleRate == x.span.sampleRate)
    else if x.late then id in r.latest && x.sampleRate == Weighed(x.span, r.latest[id] % 0x1_0000_0000)
    else exists v :: (id, v) in r.made && x.sampleRate == Weighed(x.span, v.rate)
  }

  lemma SentRates(s: State, e: Event, s': State, r: Rates, c: Causes, i: nat)
    requires e.Send? && Next(s, e, s') && Rated(s, r) && Explained(s, c) && |s.emitted| <= i < |s'.emitted|
    ensures RateIs(s'.emitted[i], e.cfg.dryRun, r)
  {
    hide *;
    SendEmits(s, e, s');
    OldestIs(s, r, c);
    var t, k := s.outgoing[0].trace, i - |s.emitted|;
    var x, v := s'.emitted[|s.emitted| + k], Verdict(s.outgoing[0].trace.sampleRate, s.outgoing[0].shouldSend);
    assert x.span == t.spans[k] && t.spans[k] in t.spans;
    RateOf(x, e.cfg.dryRun, r, v);
  }

  lemma OldestIs(s: State, r: Rates, c: Causes)
    requires s.outgoing != [] && Rated(s, r) && Explained(s, c)
    ensures var x := s.outgoing[0];
      && (x.trace.id, Verdict(x.trace.sampleRate, x.shouldSend)) in r.made
      && forall sp :: sp in x.trace.spans ==> sp.traceId == x.trace.id
  {
    assert HandedOver(s.outgoing[0], c);
  }

  lemma RateOf(x: Emission, dryRun: bool, r: Rates, v: Verdict)
    requires !x.late && (x.span.traceId, v) in r.made
    requires x.sampleRate == if dryRun then OwnRate(x.span) else Weighed(x.span, v.rate)
    ensures RateIs(x, dryRun, r)
  {
    hide Weighed;
  }

  lemma LateRates(s: State, e: Event, s': State, r: Rates, i: nat)
    requires Safe(s) && e.Receive? && Next(s, e, s') && Rated(s, r) && |s.emitted| <= i < |s'.emitted|
    ensures RateIs(s'.emitted[i], e.cfg.dryRun, r)
  {
    var id := e.sp.traceId;
    if id in s.live {
      LiveEmitsNothing(s, e, s');
    } else {
      LateEmits(s, e, s');
      hide Next, Safe, Book.Valid, Weighed, Told;
      if Has(s.memory.kept, id) {
        assert RecordRated(s.memory.kept[IndexOf(s.memory.kept, id)], r);
      }
    }
  }

  lemma LiveEmitsNothing(s: State, e: Event, s': State)
    requires Safe(s) && e.Receive? && Next(s, e, s') && e.sp.traceId in s.live
    ensures s'.emitted == s.emitted
  {
  }

  /** In every run from the initial state, each emission of each step carries its rate. */
  lemma EmissionsCarryTheRate(run: seq<State>, events: seq<Event>, keptSize: int, n: nat, i: nat)
    requires IsRun(run, events) && run[0] == Init(keptSize) && keptSize > 0 && n < |events|
    requires |run[n].emitted| <= i < |run[n + 1].emitted|
    ensures RateIs(run[n + 1].emitted[i], events[n].cfg.dryRun, RatesBy(run, events, n))
  {
    RunIsRated(run, events, keptSize, n);
    RunIsExplained(run, events, keptSize, n);
    RunSteps(run, events, n);
    var s, e, s', r, c := run[n], events[n], run[n + 1], RatesBy(run, events, n), CausesBy(run, events, n);
    EmitsOnly(s, e, s');
    hide *;
    if e.Send? {
      SentRates(s, e, s', r, c, i);
    } else {
      LateRates(s, e, s', r, i);
    }
  }

  /** Only the sender and late spans emit. */
  lemma EmitsOnly(s: State, e: Event, s': State)
    requires Safe(s) && Next(s, e, s')
    ensures e.Send? || e.Receive? || s'.emitted == s.emitted
  {
    if e.Tick? || e.Early? {
      hide *;
      BatchHands(s, e, s');
    }
  }
}
