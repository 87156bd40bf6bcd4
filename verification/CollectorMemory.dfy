/** Late spans obey the decision on their trace for as long as that is remembered. */
module CollectorMemory {
  import opened Options
  import opened Spans
  import opened Recency
  import DropMemory
  import opened Decisions
  import opened Deadlines
  import opened Collector
  import opened CollectorSafety
  import opened CollectorProgress

  /** The spans of a trace among those received, sent late and dropped. */
  function Received(events: seq<Event>, id: string): seq<Span> {
    if events == [] then []
    else (if events[0].Receive? && events[0].sp.traceId == id then [events[0].sp] else []) + Received(events[1..], id)
  }

  function SentLate(q: seq<Emission>, id: string): seq<Span> {
    if q == [] then []
    else
      var x := q[|q| - 1];
      SentLate(q[..|q| - 1], id) + if x.late && x.span.traceId == id then [x.span] else []
  }

  function DroppedOf(q: seq<Span>, id: string): seq<Span> {
    if q == [] then []
    else DroppedOf(q[..|q| - 1], id) + if q[|q| - 1].traceId == id then [q[|q| - 1]] else []
  }

  lemma {:induction false} SentLateConcat(a: seq<Emission>, b: seq<Emission>, id: string)
    ensures SentLate(a + b, id) == SentLate(a, id) + SentLate(b, id)
  {
    if b == [] {
      assert a + b == a;
    } else {
      assert (a + b)[..|a| + |b| - 1] == a + b[..|b| - 1];
      SentLateConcat(a, b[..|b| - 1], id);
    }
  }

  lemma {:induction false} DroppedOfConcat(a: seq<Span>, b: seq<Span>, id: string)
    ensures DroppedOf(a + b, id) == DroppedOf(a, id) + DroppedOf(b, id)
  {
    if b == [] {
      assert a + b == a;
    } else {
      assert (a + b)[..|a| + |b| - 1] == a + b[..|b| - 1];
      DroppedOfConcat(a, b[..|b| - 1], id);
    }
  }

  lemma {:induction false} NoneSentLate(q: seq<Emission>, id: string)
    requires forall x :: x in q ==> !x.late || x.span.traceId != id
    ensures SentLate(q, id) == []
  {
    if q != [] {
      NoneSentLate(q[..|q| - 1], id);
    }
  }

  lemma {:induction false} NoneDropped(q: seq<Span>, id: string)
    requires forall x :: x in q ==> x.traceId != id
    ensures DroppedOf(q, id) == []
  {
    if q != [] {
      NoneDropped(q[..|q| - 1], id);
    }
  }

  /** No part of the drop memory holds the id, nor has an entry for it that could still be answered. */
  ghost predicate DropFree(b: Book, id: string, now: Time) {
    && id !in b.drop.current && id !in b.drop.Survivors() && id !in b.drop.queue
    && !b.RecentlyDropped(id, now)
  }

  /** The trace was kept, is remembered as that, and is no longer in the cache. */
  ghost predicate KnownKept(s: State, id: string, now: Time) {
    id !in s.live && s.memory.Valid() && Has(s.memory.kept, id) && DropFree(s.memory, id, now)
  }

  lemma AddedKeepsOthers(c: Order<string, KeptRecord>, size: int, k: string, v: KeptRecord, id: string)
    requires DistinctKeys(c) && 0 < size && |c| <= size && id != k
    ensures var c' := Added(c, size, k, v);
      && DistinctKeys(c') && |c'| <= size
      && (Has(c', id) ==> Has(c, id) && Lookup(c', id) == Lookup(c, id))
  {
    AddedIsBoundedRecency(c, size, k, v);
    var c' := Added(c, size, k, v);
    if Has(c', id) {
      var i := IndexOf(c', id);
      var e := c'[i];
      assert e in Without(c, k);
      assert e in c && e == (id, e.1);
      LookupByEntry(c, id, e.1);
    }
  }

  lemma TruncateKeepsOthers(c: Order<string, KeptRecord>, size: int, id: string)
    requires DistinctKeys(c) && 0 < size
    ensures var c' := Truncate(c, size);
      && DistinctKeys(c') && |c'| <= size && (Has(c', id) ==> Has(c, id) && Lookup(c', id) == Lookup(c, id))
  {
    var c' := Truncate(c, size);
    if Has(c', id) {
      var i := IndexOf(c', id);
      assert c[i].0 == id;
    }
  }

  /** Putting a key with a new record in front of the others. */
  lemma FrontKeepsOthers(c: Order<string, KeptRecord>, k: string, v: KeptRecord, id: string)
    requires DistinctKeys(c) && Has(c, k)
    ensures var c' := [(k, v)] + Without(c, k);
      && DistinctKeys(c') && |c'| == |c| && Has(c', k) && Lookup(c', k) == v
      && (id != k ==> (Has(c', id) <==> Has(c, id)) && (Has(c, id) ==> Lookup(c', id) == Lookup(c, id)))
  {
    var c', i := [(k, v)] + Without(c, k), IndexOf(c, k);
    assert DistinctKeys(Without(c, k)) && forall q :: 0 <= q < |Without(c, k)| ==> Without(c, k)[q].0 != k;
    assert c'[0] == (k, v);
    IndexIsUnique(c', 0);
    if id != k && Has(c, id) {
      var j := IndexOf(c, id);
      assert c'[if j < i then j + 1 else j] == c[j];
      IndexIsUnique(c', if j < i then j + 1 else j);
    }
    if id != k && Has(c', id) {
      var j := IndexOf(c', id);
      assert c[if j <= i then j - 1 else j] == c'[j];
    }
  }

  /** What asking about one trace does to the memory of another. */
  lemma AskedKeepsOthers(b: Book, u: string, a: Annotation, now: Time, collides: bool, id: string, later: Time)
    requires b.Valid() && u != id && now <= later
    ensures var b' := b.Asked(u, a, now, collides).1;
      && b'.Valid() && b'.keptSize == b.keptSize && b'.drop == b.drop
      && (Has(b'.kept, id) <==> Has(b.kept, id)) && (Has(b.kept, id) ==> Lookup(b'.kept, id) == Lookup(b.kept, id))
      && b'.RecentlyDropped(id, later) == b.RecentlyDropped(id, later)
  {
    if Has(b.kept, u) {
      FrontKeepsOthers(b.kept, u, Lookup(b.kept, u).Counted(a), id);
    }
  }

  lemma RecordedKeepsOthers(b: Book, u: string, keep: bool, record: KeptRecord, now: Time, id: string, later: Time)
    requires b.Valid() && u != id && now <= later
    ensures var b' := b.Recorded(u, keep, record, now);
      && b'.Valid() && b'.keptSize == b.keptSize
      && (Has(b'.kept, id) ==> Has(b.kept, id) && Lookup(b'.kept, id) == Lookup(b.kept, id))
      && (DropFree(b, id, later) ==> DropFree(b', id, later))
  {
    if keep {
      AddedKeepsOthers(b.kept, b.keptSize, u, record, id);
    }
  }

  /** What happened to the spans of a trace in one step or run: late spans sent and spans dropped. */
  ghost predicate Outcome(s: State, s': State, id: string, sent: seq<Span>, dropped: seq<Span>) {
    && SentLate(s'.emitted, id) == SentLate(s.emitted, id) + sent
    && DroppedOf(s'.dropped, id) == DroppedOf(s.dropped, id) + dropped
  }

  lemma OutcomeOf(s: State, s': State, id: string, emitted: seq<Emission>, dropped: seq<Span>)
    requires s'.emitted == s.emitted + emitted && s'.dropped == s.dropped + dropped
    requires forall x :: x in emitted ==> !x.late || x.span.traceId != id
    requires forall x :: x in dropped ==> x.traceId != id
    ensures Outcome(s, s', id, [], [])
  {
    SentLateConcat(s.emitted, emitted, id);
    NoneSentLate(emitted, id);
    DroppedOfConcat(s.dropped, dropped, id);
    NoneDropped(dropped, id);
  }

  /** Deciding other traces neither sends nor drops a span of this one, and remembers of its record what
      it does not forget altogether. */
  lemma {:induction false} DecidingOthers(s: State, ts: seq<Trace>, vs: seq<Verdict>, early: bool, now: Time,
                                          cfg: Config, id: string)
    requires |ts| == |vs| && s.memory.Valid()
    requires forall t, i :: t in ts && 0 <= i < |t.spans| ==> t.spans[i].traceId != id
    requires forall t :: t in ts ==> t.id != id
    ensures var s' := DecidedAll(s, ts, vs, early, now, cfg);
      && s'.memory.Valid() && s'.emitted == s.emitted && DroppedOf(s'.dropped, id) == DroppedOf(s.dropped, id)
      && (Has(s'.memory.kept, id) ==>
            Has(s.memory.kept, id) && Lookup(s'.memory.kept, id) == Lookup(s.memory.kept, id))
      && (DropFree(s.memory, id, now) ==> DropFree(s'.memory, id, now))
    decreases |ts|
  {
    if ts != [] {
      var n := |ts| - 1;
      var t := ts[n];
      DecidingOthers(s, ts[..n], vs[..n], early, now, cfg, id);
      var s1 := DecidedAll(s, ts[..n], vs[..n], early, now, cfg);
      var record := t.(sampleRate := vs[n].rate, keep := vs[n].keep, sent := true).Record();
      RecordedKeepsOthers(s1.memory, t.id, vs[n].keep, record, now, id, now);
      DroppedOfConcat(s1.dropped, t.spans, id);
      NoneDropped(t.spans, id);
    }
  }

  predicate Concerns(e: Event, id: string) {
    e.Receive? && e.sp.traceId == id
  }

  /** The record of a kept trace is untouched, and so is what was sent and dropped of its late spans. */
  ghost predicate Undisturbed(s: State, s': State, id: string, now: Time) {
    && KnownKept(s', id, now) && Has(s.memory.kept, id)
    && Lookup(s'.memory.kept, id) == Lookup(s.memory.kept, id) && Outcome(s, s', id, [], [])
  }

  /** A rate of 0 counts as 1. */
  function OwnRate(sp: Span): nat {
    if sp.sampleRate == 0 then 1 else sp.sampleRate
  }

  /** The product in 64 bits. */
  function Weighed(sp: Span, rate: nat): nat {
    (OwnRate(sp) * rate) % 0x1_0000_0000_0000_0000
  }

  /** The root span, and no other, is told these numbers, in 32 bits, as far as the settings ask for them. */
  ghost predicate Told(m: Marks, sp: Span, cfg: Config, total: nat, plain: nat, events: nat, links: nat) {
    if !sp.isRoot || cfg.rootCounts.NoCounts? then m == NoMarks
    else if cfg.rootCounts.SpanCountOnly? then m == TotalMark(total % 0x1_0000_0000)
    else m == AllMarks(total % 0x1_0000_0000,
                       Counts(plain % 0x1_0000_0000, events % 0x1_0000_0000, links % 0x1_0000_0000))
  }

  lemma KeptSpan(s: State, e: Event, s': State, id: string)
    requires Safe(s) && Next(s, e, s') && KnownKept(s, id, e.now) && Concerns(e, id) && !e.collides
    ensures var record := Lookup(s.memory.kept, id).Counted(e.sp.annotation);
      && KnownKept(s', id, e.now) && Lookup(s'.memory.kept, id) == record && Outcome(s, s', id, [e.sp], [])
      && |s'.emitted| == |s.emitted| + 1 && s'.emitted[..|s.emitted|] == s.emitted
      && var x := s'.emitted[|s.emitted|];
         && x.span == e.sp && x.late
         && x.sampleRate == (if e.cfg.dryRun then OwnRate(e.sp) else Weighed(e.sp, record.rate))
         && Told(x.marks, e.sp, e.cfg, record.total, record.counts.spans, record.counts.events, record.counts.links)
  {
    var record := Lookup(s.memory.kept, id).Counted(e.sp.annotation);
    FrontKeepsOthers(s.memory.kept, id, record, id);
    var x := s'.emitted[|s.emitted|];
    assert s'.emitted == s.emitted + [x];
    assert SentLate([x], id) == [e.sp] by { assert SentLate([x][..0], id) == []; }
    SentLateConcat(s.emitted, [x], id);
  }

  /** A span of another trace: what it changes. */
  lemma ReceiveElsewhere(s: State, e: Event, s': State, id: string)
    requires Safe(s) && e.Receive? && Next(s, e, s') && !Concerns(e, id)
    ensures (id in s'.live <==> id in s.live) && Outcome(s, s', id, [], [])
    ensures s'.memory == s.memory
            || s'.memory == s.memory.Asked(e.sp.traceId, e.sp.annotation, e.now, e.collides).1
  {
    hide Book.Asked, Conserved, DecidedOnce, SentLate, DroppedOf, Outcome;
    var emitted, dropped := s'.emitted[|s.emitted|..], s'.dropped[|s.dropped|..];
    assert s'.emitted == s.emitted + emitted && s'.dropped == s.dropped + dropped;
    OutcomeOf(s, s', id, emitted, dropped);
  }

  lemma KeptAmidReceive(s: State, e: Event, s': State, id: string)
    requires Safe(s) && e.Receive? && Next(s, e, s') && KnownKept(s, id, e.now) && !Concerns(e, id)
    ensures Undisturbed(s, s', id, e.now)
  {
    AskedKeepsOthers(s.memory, e.sp.traceId, e.sp.annotation, e.now, e.collides, id, e.now);
    ReceiveElsewhere(s, e, s', id);
    hide Next, Safe, Outcome, Book.Asked;
  }

  lemma BatchElsewhere(s: State, e: Event, s': State, id: string)
    requires Safe(s) && (e.Tick? || e.Early?) && Next(s, e, s') && id !in s.live
    ensures forall t, i :: t in Batch(s, e, s') && 0 <= i < |t.spans| ==> t.spans[i].traceId != id
    ensures forall t :: t in Batch(s, e, s') ==> t.id != id
  {
    BatchStep(s, e, s');
    hide Next, Batch, DecidedAll, Conserved, DecidedOnce;
  }

  /** Decisions on other traces: what they change. */
  lemma DecidingElsewhere(s: State, e: Event, s': State, id: string)
    requires Safe(s) && s.memory.Valid() && (e.Tick? || e.Early?) && Next(s, e, s') && id !in s.live
    ensures id !in s'.live && s'.memory.Valid() && Outcome(s, s', id, [], [])
    ensures Has(s'.memory.kept, id) ==>
              Has(s.memory.kept, id) && Lookup(s'.memory.kept, id) == Lookup(s.memory.kept, id)
    ensures DropFree(s.memory, id, e.now) ==> DropFree(s'.memory, id, e.now)
    ensures (id in s'.memory.recent <==> id in s.memory.recent)
            && (id in s'.memory.recent ==> s'.memory.recent[id] == s.memory.recent[id])
  {
    hide *;
    var ts, s1 := Batch(s, e, s'), Removed(s, Elements(TraceIds(Batch(s, e, s'))));
    RemovedKeeps(s, Elements(TraceIds(ts)));
    BatchReady(s, e, s');
    BatchElsewhere(s, e, s', id);
    DecidingOthers(s1, ts, VerdictsOf(e), e.Early?, e.now, e.cfg, id);
    DecidingKeepsEntry(s1, ts, VerdictsOf(e), e.Early?, e.now, e.cfg, id);
    DecidingKeepsLive(s1, ts, VerdictsOf(e), e.Early?, e.now, e.cfg);
    OutcomeSame(s, s', id);
  }

  lemma RemovedKeeps(s: State, ids: set<string>)
    ensures var s1 := Removed(s, ids);
      && s1.memory == s.memory && s1.emitted == s.emitted && s1.dropped == s.dropped
      && forall id :: id !in s.live ==> id !in s1.live
  {
  }

  lemma OutcomeSame(s: State, s': State, id: string)
    requires s'.emitted == s.emitted && DroppedOf(s'.dropped, id) == DroppedOf(s.dropped, id)
    ensures Outcome(s, s', id, [], [])
  {
    hide SentLate, DroppedOf;
  }

  lemma KeptAmidDecisions(s: State, e: Event, s': State, id: string)
    requires Safe(s) && (e.Tick? || e.Early?) && Next(s, e, s') && KnownKept(s, id, e.now) && Has(s'.memory.kept, id)
    ensures Undisturbed(s, s', id, e.now)
  {
    DecidingElsewhere(s, e, s', id);
    hide Safe, Next, Outcome;
  }

  predicate Upkeep(e: Event) {
    e.Reload? || e.Send? || e.Tend? || e.CleanUp?
  }

  lemma TendingKeepsDropFree(s: State, e: Event, s': State, id: string)
    requires s.memory.Valid() && (e.Tend? || e.CleanUp?) && Next(s, e, s') && DropFree(s.memory, id, e.now)
    ensures s'.memory.Valid() && DropFree(s'.memory, id, e.now)
  {
  }

  lemma KeptAmidUpkeep(s: State, e: Event, s': State, id: string)
    requires Safe(s) && Upkeep(e) && Next(s, e, s') && KnownKept(s, id, e.now)
    requires Has(s'.memory.kept, id)
    ensures Undisturbed(s, s', id, e.now)
  {
    hide SentLate, DroppedOf, Conserved, DecidedOnce;
    if e.Tend? || e.CleanUp? {
      TendingKeepsDropFree(s, e, s', id);
      hide Book.Valid, DropFree, Book.CleanedUp, DropMemory.Next;
      OutcomeOf(s, s', id, [], []);
    } else if e.Reload? {
      if e.keptSize > 0 {
        TruncateKeepsOthers(s.memory.kept, e.keptSize, id);
      }
      OutcomeOf(s, s', id, [], []);
    } else {
      var emitted := s'.emitted[|s.emitted|..];
      assert s'.emitted == s.emitted + emitted && s'.dropped == s.dropped + [];
      OutcomeOf(s, s', id, emitted, []);
    }
  }

  /** From s to s' the trace stays remembered as kept, the given late spans of it are sent and counted,
      and none is dropped. */
  ghost predicate Counting(s: State, s': State, id: string, spans: seq<Span>, now: Time) {
    && Has(s.memory.kept, id) && KnownKept(s', id, now) && Outcome(s, s', id, spans, [])
    && var r, r' := Lookup(s.memory.kept, id), Lookup(s'.memory.kept, id);
      && r'.rate == r.rate && r'.total == Wrap32(r.total + |spans|) && (Balanced(r) ==> Balanced(r'))
  }

  lemma CountingOne(s: State, s': State, id: string, sp: Span, now: Time)
    requires Has(s.memory.kept, id) && KnownKept(s', id, now) && Outcome(s, s', id, [sp], [])
    requires Lookup(s'.memory.kept, id) == Lookup(s.memory.kept, id).Counted(sp.annotation)
    ensures Counting(s, s', id, [sp], now)
  {
    WrapShift(Lookup(s.memory.kept, id).total, 0);
    PlusTotal(Lookup(s.memory.kept, id).counts, sp.annotation);
  }

  lemma CountingNone(s: State, s': State, id: string, now: Time)
    requires Undisturbed(s, s', id, now)
    ensures Counting(s, s', id, [], now)
  {
    WrapShift(Lookup(s.memory.kept, id).total, 0);
  }

  lemma KeptStep(s: State, e: Event, s': State, id: string)
    requires Safe(s) && Next(s, e, s') && KnownKept(s, id, e.now) && Has(s'.memory.kept, id)
    requires Concerns(e, id) ==> !e.collides
    ensures Counting(s, s', id, Received([e], id), e.now)
  {
    ReceivedOne(e, id);
    hide Next, Safe, Counting, Undisturbed, Outcome, Received;
    if Concerns(e, id) {
      assert Has(s.memory.kept, id);
      KeptSpan(s, e, s', id);
      CountingOne(s, s', id, e.sp, e.now);
    } else {
      hide KnownKept;
      if e.Receive? {
        KeptAmidReceive(s, e, s', id);
      } else if e.Tick? || e.Early? {
        KeptAmidDecisions(s, e, s', id);
      } else {
        KeptAmidUpkeep(s, e, s', id);
      }
      CountingNone(s, s', id, e.now);
    }
  }

  lemma ReceivedOne(e: Event, id: string)
    ensures Received([e], id) == if Concerns(e, id) then [e.sp] else []
  {
    assert Received([e][1..], id) == [];
  }

  lemma WrapShift(t: u32, n: nat)
    ensures Wrap32(Inc32(t) + n) == Wrap32(t + n + 1)
    ensures Wrap32(t) == t
  {
  }

  lemma WrapSum(t: u32, a: nat, b: nat)
    ensures Wrap32(Wrap32(t + a) + b) == Wrap32(t + a + b)
  {
  }

  lemma CountingComposes(s: State, s1: State, s': State, id: string, a: seq<Span>, b: seq<Span>, now: Time, later: Time)
    requires Counting(s, s1, id, a, now) && Counting(s1, s', id, b, later)
    ensures Counting(s, s', id, a + b, later)
  {
    hide KnownKept, Wrap32, Lookup, Balanced;
    WrapSum(Lookup(s.memory.kept, id).total, |a|, |b|);
  }

  /** While a kept trace is remembered as kept, every late span of it is sent and none is dropped, the
      record keeps its rate, and its total grows by exactly the late spans. */
  lemma {:induction false} LateSpansOfKeptTracesAreSent(run: seq<State>, events: seq<Event>, id: string)
    requires IsRun(run, events) && Safe(run[0]) && |events| > 0 && KnownKept(run[0], id, events[0].now)
    requires forall i :: 0 <= i < |run| ==> Has(run[i].memory.kept, id)
    requires forall i :: 0 <= i < |events| && Concerns(events[i], id) ==> !events[i].collides
    ensures Counting(run[0], run[|events|], id, Received(events, id), events[|events| - 1].now)
  {
    hide Next, Safe, Counting;
    var e := events[0];
    assert Next(run[0], e, run[1]);
    StepKeeps(run[0], e, run[1]);
    KeptStep(run[0], e, run[1], id);
    if |events| > 1 {
      LaterIsKept(run[0], run[1], id, Received([e], id), e.now, events[1].now);
      LateSpansOfKeptTracesAreSent(run[1..], events[1..], id);
      CountingComposes(run[0], run[1], run[|events|], id, Received([e], id), Received(events[1..], id),
                       e.now, events[|events| - 1].now);
      ReceivedSplit(events, id);
    } else {
      assert events == [e];
    }
  }

  lemma ReceivedSplit(events: seq<Event>, id: string)
    requires events != []
    ensures Received(events, id) == Received([events[0]], id) + Received(events[1..], id)
  {
    assert Received([events[0]][1..], id) == [];
  }

  lemma LaterIsKept(s: State, s': State, id: string, spans: seq<Span>, now: Time, later: Time)
    requires Counting(s, s', id, spans, now) && now <= later
    ensures KnownKept(s', id, later)
  {
  }

  /** The record has the numbers of the spans, in all and by kind, in 32 bits. */
  ghost predicate Tallies(r: KeptRecord, spans: seq<Span>) {
    && r.total == |spans| % 0x1_0000_0000
    && r.counts.spans == NumberOf(spans, Plain) % 0x1_0000_0000
    && r.counts.events == NumberOf(spans, SpanEvent) % 0x1_0000_0000
    && r.counts.links == NumberOf(spans, Link) % 0x1_0000_0000
  }

  /** The decision itself: a kept trace that the drop memory does not hold is known from then on, with a
      total that counts its spans. */
  lemma KeptDecisionIsKnown(s: State, t: Trace, v: Verdict, reason: SendReason, now: Time, cfg: Config)
    requires !t.sent && v.keep && t.id !in s.live && s.memory.Valid() && DropFree(s.memory, t.id, now)
    ensures var s' := Decided(s, t, v, reason, now, cfg);
      && KnownKept(s', t.id, now)
      && var r := Lookup(s'.memory.kept, t.id);
         r.rate == Wrap32(v.rate) && Tallies(r, t.spans) && Balanced(r) && Newer(s'.memory.kept, t.id) == {}
  {
    var record := t.(sampleRate := v.rate, keep := v.keep, sent := true).Record();
    AddedIsBoundedRecency(s.memory.kept, s.memory.keptSize, t.id, record);
    IndexIsUnique(Added(s.memory.kept, s.memory.keptSize, t.id, record), 0);
    NewRecordIsBalanced(v.rate, t.spans);
    CountsAre(t.spans);
  }

  /** The keys of the records that are newer than that of the id. */
  ghost function Newer(c: Order<string, KeptRecord>, id: string): set<string>
    requires Has(c, id)
  {
    KeysOf(c[..IndexOf(c, id)])
  }

  function KeysOf(c: Order<string, KeptRecord>): set<string> {
    set i | 0 <= i < |c| :: c[i].0
  }

  lemma {:induction false} KeysCount(c: Order<string, KeptRecord>)
    requires DistinctKeys(c)
    ensures |KeysOf(c)| == |c|
  {
    if c != [] {
      var n := |c| - 1;
      KeysCount(c[..n]);
      assert KeysOf(c) == KeysOf(c[..n]) + {c[n].0};
    }
  }

  /** A record with fewer than n newer ones is among the n newest. */
  lemma NewerBound(c: Order<string, KeptRecord>, id: string, used: set<string>, n: nat)
    requires DistinctKeys(c) && Has(c, id) && Newer(c, id) <= used && |used| < n
    ensures IndexOf(c, id) < n
  {
    KeysCount(c[..IndexOf(c, id)]);
    Subset(Newer(c, id), used);
  }

  lemma SurvivesTruncate(c: Order<string, KeptRecord>, size: int, id: string, used: set<string>)
    requires DistinctKeys(c) && Has(c, id) && Newer(c, id) <= used && |used| < size
    ensures Has(Truncate(c, size), id) && Newer(Truncate(c, size), id) <= used
  {
    NewerBound(c, id, used, size);
    var c', i := Truncate(c, size), IndexOf(c, id);
    assert c'[i] == c[i];
    IndexIsUnique(c', i);
    assert c'[..i] == c[..i];
  }

  lemma FrontShifts(c: Order<string, KeptRecord>, k: string, v: KeptRecord, id: string)
    requires DistinctKeys(c) && Has(c, id) && k != id
    ensures var c', j := [(k, v)] + Without(c, k), IndexOf(c, id);
      && DistinctKeys(c') && Has(c', id)
      && IndexOf(c', id) == if Has(c, k) && IndexOf(c, k) < j then j else j + 1
  {
    var w, j := Without(c, k), IndexOf(c, id);
    var c' := [(k, v)] + w;
    assert DistinctKeys(w) && forall q :: 0 <= q < |w| ==> w[q].0 != k;
    var i := if Has(c, k) && IndexOf(c, k) < j then j else j + 1;
    assert c'[i] == c[j];
    IndexIsUnique(c', i);
  }

  /** Another record comes to the front. */
  lemma SurvivesFront(c: Order<string, KeptRecord>, k: string, v: KeptRecord, id: string, used: set<string>)
    requires DistinctKeys(c) && Has(c, id) && k != id && Newer(c, id) <= used
    ensures var c' := [(k, v)] + Without(c, k); DistinctKeys(c') && Has(c', id) && Newer(c', id) <= used + {k}
  {
    FrontShifts(c, k, v, id);
    var c' := [(k, v)] + Without(c, k);
    var i, j := IndexOf(c', id), IndexOf(c, id);
    hide DistinctKeys, Without;
    forall u | u in Newer(c', id) ensures u in used + {k} {
      var q :| 0 <= q < i && c'[..i][q].0 == u;
      if q > 0 {
        var r := FrontAt(c, k, v, q);
        assert c[..j][r].0 == u;
      }
    }
  }

  lemma FrontAt(c: Order<string, KeptRecord>, k: string, v: KeptRecord, q: nat) returns (r: nat)
    requires 0 < q <= |Without(c, k)|
    ensures r == (if Has(c, k) && IndexOf(c, k) <= q - 1 then q else q - 1) && r < |c|
    ensures c[r] == ([(k, v)] + Without(c, k))[q]
  {
    r := if Has(c, k) && IndexOf(c, k) <= q - 1 then q else q - 1;
  }

  lemma SurvivesAdd(c: Order<string, KeptRecord>, size: nat, k: string, v: KeptRecord, id: string, used: set<string>)
    requires DistinctKeys(c) && Has(c, id) && k != id && Newer(c, id) <= used && k in used && |used| < size
    ensures Has(Added(c, size, k, v), id) && Newer(Added(c, size, k, v), id) <= used
  {
    SurvivesFront(c, k, v, id, used);
    assert used + {k} == used;
    SurvivesTruncate([(k, v)] + Without(c, k), size, id, used);
  }

  lemma {:induction false} SurvivesDecisions(s: State, ts: seq<Trace>, vs: seq<Verdict>, early: bool, now: Time,
                                             cfg: Config, id: string, used: set<string>)
    requires |ts| == |vs| && s.memory.Valid() && forall t :: t in ts ==> t.id != id
    requires Has(s.memory.kept, id) && Newer(s.memory.kept, id) <= used && IdsWith(ts, vs, true) <= used
    requires |used| < s.memory.keptSize
    ensures var b := DecidedAll(s, ts, vs, early, now, cfg).memory;
      b.Valid() && b.keptSize == s.memory.keptSize && Has(b.kept, id) && Newer(b.kept, id) <= used
    decreases |ts|
  {
    if ts != [] {
      var n := |ts| - 1;
      var t := ts[n];
      assert IdsWith(ts[..n], vs[..n], true) <= IdsWith(ts, vs, true);
      SurvivesDecisions(s, ts[..n], vs[..n], early, now, cfg, id, used);
      var s1 := DecidedAll(s, ts[..n], vs[..n], early, now, cfg);
      var record := t.(sampleRate := vs[n].rate, keep := vs[n].keep, sent := true).Record();
      hide Newer, DecidedAll;
      RecordedKeepsOthers(s1.memory, t.id, vs[n].keep, record, now, id, now);
      if vs[n].keep {
        assert t.id in IdsWith(ts, vs, true);
        SurvivesAdd(s1.memory.kept, s1.memory.keptSize, t.id, record, id, used);
      }
    }
  }

  /** The other traces that an event may make more recent: asked for, or recorded as kept. */
  ghost function Uses(s: State, e: Event, s': State): set<string>
    requires Next(s, e, s')
  {
    match e
    case Receive(_, _, sp, _) => {sp.traceId}
    case _ => IdsWith(Batch(s, e, s'), VerdictsOf(e), true)
  }

  /** The traces used since the last late span of the id. */
  ghost function UsedAfter(s: State, e: Event, s': State, id: string, used: set<string>): set<string>
    requires Next(s, e, s')
  {
    if Concerns(e, id) then {} else used + Uses(s, e, s')
  }

  lemma KeptSurvives(s: State, e: Event, s': State, id: string, used: set<string>)
    requires Safe(s) && Next(s, e, s') && KnownKept(s, id, e.now) && (Concerns(e, id) ==> !e.collides)
    requires Newer(s.memory.kept, id) <= used && |UsedAfter(s, e, s', id, used)| < s'.memory.keptSize
    ensures Has(s'.memory.kept, id) && Newer(s'.memory.kept, id) <= UsedAfter(s, e, s', id, used)
  {
    hide Safe, Newer;
    if Concerns(e, id) {
      KeptSpanIsNewest(s, e, s', id);
    } else if e.Tick? || e.Early? {
      hide KnownKept;
      KeptSurvivesDecisions(s, e, s', id, used);
    } else if e.Receive? {
      hide KnownKept;
      KeptSurvivesReceive(s, e, s', id, used);
    } else if e.Reload? && e.keptSize > 0 {
      SurvivesTruncate(s.memory.kept, e.keptSize, id, used);
    }
  }

  lemma KeptSurvivesReceive(s: State, e: Event, s': State, id: string, used: set<string>)
    requires Safe(s) && Next(s, e, s') && KnownKept(s, id, e.now) && e.Receive? && !Concerns(e, id)
    requires Newer(s.memory.kept, id) <= used
    ensures Has(s'.memory.kept, id) && Newer(s'.memory.kept, id) <= UsedAfter(s, e, s', id, used)
  {
    AskedSurvives(s.memory, e.sp.traceId, e.sp.annotation, e.now, e.collides, id, used);
    ReceiveElsewhere(s, e, s', id);
    hide Safe, Newer, Outcome, Book.Asked;
  }

  lemma KeptSurvivesDecisions(s: State, e: Event, s': State, id: string, used: set<string>)
    requires Safe(s) && Next(s, e, s') && KnownKept(s, id, e.now) && (e.Tick? || e.Early?)
    requires Newer(s.memory.kept, id) <= used && |UsedAfter(s, e, s', id, used)| < s'.memory.keptSize
    ensures Has(s'.memory.kept, id) && Newer(s'.memory.kept, id) <= UsedAfter(s, e, s', id, used)
  {
    var ts, s1 := Batch(s, e, s'), Removed(s, Elements(TraceIds(Batch(s, e, s'))));
    BatchStep(s, e, s');
    hide Newer, DecidedAll, Safe, Next, Batch, IdsWith;
    DecidingKeepsSize(s1, ts, VerdictsOf(e), e.Early?, e.now, e.cfg);
    SurvivesDecisions(s1, ts, VerdictsOf(e), e.Early?, e.now, e.cfg, id, UsedAfter(s, e, s', id, used));
  }

  lemma {:induction false} DecidingKeepsSize(s: State, ts: seq<Trace>, vs: seq<Verdict>, early: bool, now: Time,
                                             cfg: Config)
    requires |ts| == |vs|
    ensures DecidedAll(s, ts, vs, early, now, cfg).memory.keptSize == s.memory.keptSize
    decreases |ts|
  {
    if ts != [] {
      DecidingKeepsSize(s, ts[..|ts| - 1], vs[..|ts| - 1], early, now, cfg);
    }
  }

  lemma KeptSpanIsNewest(s: State, e: Event, s': State, id: string)
    requires Safe(s) && Next(s, e, s') && KnownKept(s, id, e.now) && Concerns(e, id) && !e.collides
    ensures Has(s'.memory.kept, id) && Newer(s'.memory.kept, id) == {}
  {
    var record := Lookup(s.memory.kept, id).Counted(e.sp.annotation);
    FrontKeepsOthers(s.memory.kept, id, record, id);
    IndexIsUnique(s'.memory.kept, 0);
  }

  lemma AskedSurvives(b: Book, u: string, a: Annotation, now: Time, collides: bool, id: string, used: set<string>)
    requires b.Valid() && Has(b.kept, id) && u != id && Newer(b.kept, id) <= used
    ensures var b' := b.Asked(u, a, now, collides).1; Has(b'.kept, id) && Newer(b'.kept, id) <= used + {u}
  {
    hide Newer;
    if Has(b.kept, u) {
      SurvivesFront(b.kept, u, Lookup(b.kept, u).Counted(a), id, used);
    }
  }

  /** The traces used since the last late span of the id, along a run. */
  ghost function UsedSince(run: seq<State>, events: seq<Event>, id: string, used: set<string>): set<string>
    requires |run| > |events| && forall i :: 0 <= i < |events| ==> Next(run[i], events[i], run[i + 1])
    decreases |events|
  {
    if events == [] then used
    else UsedSince(run[1..], events[1..], id, UsedAfter(run[0], events[0], run[1], id, used))
  }

  /** A kept trace is remembered for as long as fewer other traces were used since its last late span than the cache
      holds; so its late spans are sent and counted. */
  lemma {:induction false} RecentlyUsedTracesAreSent(run: seq<State>, events: seq<Event>, id: string, used: set<string>)
    requires IsRun(run, events) && Safe(run[0]) && |events| > 0 && KnownKept(run[0], id, events[0].now)
    requires Newer(run[0].memory.kept, id) <= used
    requires forall i :: 0 <= i < |events| && Concerns(events[i], id) ==> !events[i].collides
    requires forall i :: 0 < i <= |events| ==> |UsedSince(run, events[..i], id, used)| < run[i].memory.keptSize
    ensures Counting(run[0], run[|events|], id, Received(events, id), events[|events| - 1].now)
    decreases |events|
  {
    hide Next, Safe, Counting, Newer, UsedAfter;
    var e := events[0];
    assert Next(run[0], e, run[1]);
    StepKeeps(run[0], e, run[1]);
    var used' := UsedAfter(run[0], e, run[1], id, used);
    UsedStep(run, events, id, used, 1);
    assert events[1..][..0] == [];
    KeptSurvives(run[0], e, run[1], id, used);
    KeptStep(run[0], e, run[1], id);
    if |events| > 1 {
      LaterIsKept(run[0], run[1], id, Received([e], id), e.now, events[1].now);
      forall i | 0 < i <= |events| - 1
        ensures |UsedSince(run[1..], events[1..][..i], id, used')| < run[1..][i].memory.keptSize
      {
        UsedStep(run, events, id, used, i + 1);
      }
      RecentlyUsedTracesAreSent(run[1..], events[1..], id, used');
      CountingComposes(run[0], run[1], run[|events|], id, Received([e], id), Received(events[1..], id),
                       e.now, events[|events| - 1].now);
      ReceivedSplit(events, id);
    } else {
      assert events == [e];
    }
  }

  lemma UsedStep(run: seq<State>, events: seq<Event>, id: string, used: set<string>, i: nat)
    requires |run| > |events| && forall j :: 0 <= j < |events| ==> Next(run[j], events[j], run[j + 1])
    requires 0 < i <= |events|
    ensures UsedSince(run, events[..i], id, used)
            == UsedSince(run[1..], events[1..][..i - 1], id, UsedAfter(run[0], events[0], run[1], id, used))
  {
    hide Next, UsedAfter;
    assert events[..i][1..] == events[1..][..i - 1] && events[..i][0] == events[0];
  }

  /** A dropped trace whose short memory lapses at x: there is no other entry for it, and there is one until
      then. */
  ghost predicate DroppedUntil(s: State, id: string, x: Time, now: Time) {
    && id !in s.live && s.memory.Valid()
    && (id in s.memory.recent ==> s.memory.recent[id] == x) && (now < x ==> id in s.memory.recent)
  }

  /** The short memory after an event: every late span of the trace refreshes it. */
  function Refreshed(e: Event, id: string, x: Time): Time {
    if Concerns(e, id) then e.now + 3_000_000_000 else x
  }

  function Lapse(events: seq<Event>, id: string, x: Time): Time {
    if events == [] then x else Lapse(events[1..], id, Refreshed(events[0], id, x))
  }

  /** A late span comes in time: before the lapse, or after the id was drained, or with a false positive. */
  predicate Recognised(s: State, e: Event, id: string, x: Time) {
    Concerns(e, id) ==> e.now < x || id in s.memory.drop.current || e.collides
  }

  /** Exactly those late spans are answered as dropped. */
  lemma AnsweredAsDropped(s: State, e: Event, id: string, x: Time)
    requires DroppedUntil(s, id, x, e.now) && Concerns(e, id)
    ensures s.memory.Asked(id, e.sp.annotation, e.now, e.collides).0.Dropped? <==> Recognised(s, e, id, x)
  {
  }

  lemma OneLate(sp: Span, id: string)
    requires sp.traceId == id
    ensures SentLate([Emission(sp, true, sp.sampleRate, NoMarks)], id) == [sp] && DroppedOf([sp], id) == [sp]
  {
    assert SentLate([Emission(sp, true, sp.sampleRate, NoMarks)][..0], id) == [] && DroppedOf([sp][..0], id) == [];
  }

  lemma DroppedSpan(s: State, e: Event, s': State, id: string, x: Time)
    requires Safe(s) && Next(s, e, s') && DroppedUntil(s, id, x, e.now) && Concerns(e, id) && Recognised(s, e, id, x)
    ensures DroppedUntil(s', id, Refreshed(e, id, x), e.now)
    ensures Outcome(s, s', id, if e.cfg.dryRun then [e.sp] else [], if e.cfg.dryRun then [] else [e.sp])
  {
    hide Conserved, DecidedOnce, SentLate, DroppedOf;
    OneLate(e.sp, id);
    if e.cfg.dryRun {
      SentLateConcat(s.emitted, [Emission(e.sp, true, e.sp.sampleRate, NoMarks)], id);
    } else {
      DroppedOfConcat(s.dropped, [e.sp], id);
    }
  }

  /** What a step leaves alone that is not about the trace: its entry in the short memory. */
  ghost predicate EntryKept(b: Book, b': Book, id: string, now: Time) {
    && b'.Valid() && (id in b'.recent ==> id in b.recent && b'.recent[id] == b.recent[id])
    && (id in b.recent && now < b.recent[id] ==> id in b'.recent)
  }

  lemma StillDropped(s: State, s': State, id: string, x: Time, now: Time)
    requires DroppedUntil(s, id, x, now) && EntryKept(s.memory, s'.memory, id, now) && id !in s'.live
    ensures DroppedUntil(s', id, x, now)
  {
  }

  /** Deciding other traces changes neither the entry nor the current filter. */
  lemma {:induction false} DecidingKeepsEntry(s: State, ts: seq<Trace>, vs: seq<Verdict>, early: bool, now: Time,
                                              cfg: Config, id: string)
    requires |ts| == |vs| && s.memory.Valid() && forall t :: t in ts ==> t.id != id
    ensures var b := DecidedAll(s, ts, vs, early, now, cfg).memory;
      && b.Valid() && b.drop.current == s.memory.drop.current
      && (id in b.recent <==> id in s.memory.recent) && (id in b.recent ==> b.recent[id] == s.memory.recent[id])
    decreases |ts|
  {
    if ts != [] {
      var n := |ts| - 1;
      var t := ts[n];
      DecidingKeepsEntry(s, ts[..n], vs[..n], early, now, cfg, id);
      var s1 := DecidedAll(s, ts[..n], vs[..n], early, now, cfg);
      var record := t.(sampleRate := vs[n].rate, keep := vs[n].keep, sent := true).Record();
      RecordedKeepsOthers(s1.memory, t.id, vs[n].keep, record, now, id, now);
    }
  }

  lemma TendingKeepsEntry(s: State, e: Event, s': State, id: string)
    requires s.memory.Valid() && (e.Tend? || e.CleanUp?) && Next(s, e, s')
    ensures EntryKept(s.memory, s'.memory, id, e.now)
  {
  }

  lemma AskedKeepsEntry(b: Book, u: string, a: Annotation, now: Time, collides: bool, id: string)
    requires u != id
    ensures var b' := b.Asked(u, a, now, collides).1;
      && (id in b'.recent <==> id in b.recent) && (id in b.recent ==> b'.recent[id] == b.recent[id])
  {
  }

  lemma DroppedAmidOthers(s: State, e: Event, s': State, id: string, x: Time)
    requires Safe(s) && Next(s, e, s') && DroppedUntil(s, id, x, e.now) && !Concerns(e, id)
    ensures DroppedUntil(s', id, x, e.now) && Outcome(s, s', id, [], [])
  {
    hide Next, Safe, Outcome;
    if e.Tick? || e.Early? {
      DecidingElsewhere(s, e, s', id);
    } else if e.Receive? {
      DroppedAmidReceive(s, e, s', id, x);
    } else {
      DroppedAmidUpkeep(s, e, s', id, x);
    }
  }

  lemma DroppedAmidReceive(s: State, e: Event, s': State, id: string, x: Time)
    requires Safe(s) && e.Receive? && Next(s, e, s') && DroppedUntil(s, id, x, e.now) && !Concerns(e, id)
    ensures DroppedUntil(s', id, x, e.now) && Outcome(s, s', id, [], [])
  {
    AskedKeepsOthers(s.memory, e.sp.traceId, e.sp.annotation, e.now, e.collides, id, e.now);
    AskedKeepsEntry(s.memory, e.sp.traceId, e.sp.annotation, e.now, e.collides, id);
    ReceiveElsewhere(s, e, s', id);
    hide Next, Safe, Outcome, Book.Asked, Book.Valid;
  }

  lemma DroppedAmidUpkeep(s: State, e: Event, s': State, id: string, x: Time)
    requires Safe(s) && Next(s, e, s') && DroppedUntil(s, id, x, e.now) && Upkeep(e)
    ensures DroppedUntil(s', id, x, e.now) && Outcome(s, s', id, [], [])
  {
    hide Conserved, DecidedOnce, SentLate, DroppedOf;
    var emitted := s'.emitted[|s.emitted|..];
    assert s'.emitted == s.emitted + emitted && s'.dropped == s.dropped + [];
    OutcomeOf(s, s', id, emitted, []);
    if e.Tend? || e.CleanUp? {
      TendingKeepsEntry(s, e, s', id);
      hide DropMemory.Next, Book.CleanedUp;
      StillDropped(s, s', id, x, e.now);
    } else if e.Reload? && e.keptSize > 0 {
      TruncateKeepsOthers(s.memory.kept, e.keptSize, id);
    }
  }

  /** The late spans of a trace that come in a dry run, or that do not. */
  function ReceivedIn(dryRun: bool, events: seq<Event>, id: string): seq<Span> {
    if events == [] then []
    else
      (if Concerns(events[0], id) && events[0].cfg.dryRun == dryRun then [events[0].sp] else [])
      + ReceivedIn(dryRun, events[1..], id)
  }

  lemma DroppedStep(s: State, e: Event, s': State, id: string, x: Time)
    requires Safe(s) && Next(s, e, s') && DroppedUntil(s, id, x, e.now) && Recognised(s, e, id, x)
    ensures DroppedUntil(s', id, Refreshed(e, id, x), e.now)
    ensures Outcome(s, s', id, ReceivedIn(true, [e], id), ReceivedIn(false, [e], id))
  {
    OneReceivedIn(e, id);
    hide Next, Safe, DroppedUntil, Outcome, ReceivedIn, Recognised;
    if Concerns(e, id) {
      DroppedSpan(s, e, s', id, x);
    } else {
      DroppedAmidOthers(s, e, s', id, x);
    }
  }

  lemma OneReceivedIn(e: Event, id: string)
    ensures forall d :: ReceivedIn(d, [e], id) == if Concerns(e, id) && e.cfg.dryRun == d then [e.sp] else []
  {
    assert forall d :: ReceivedIn(d, [e][1..], id) == [];
  }

  lemma OutcomeComposes(s: State, s1: State, s': State, id: string, a: seq<Span>, b: seq<Span>, c: seq<Span>,
                        d: seq<Span>)
    requires Outcome(s, s1, id, a, b) && Outcome(s1, s', id, c, d)
    ensures Outcome(s, s', id, a + c, b + d)
  {
    hide SentLate, DroppedOf;
  }

  lemma OutcomeOfNothing(s: State, id: string)
    ensures Outcome(s, s, id, [], [])
  {
    hide SentLate, DroppedOf;
  }

  lemma ReceivedInSplit(dryRun: bool, events: seq<Event>, id: string)
    requires events != []
    ensures ReceivedIn(dryRun, events, id) == ReceivedIn(dryRun, [events[0]], id) + ReceivedIn(dryRun, events[1..], id)
  {
    assert ReceivedIn(dryRun, [events[0]][1..], id) == [];
  }

  lemma LaterIsDropped(s: State, id: string, x: Time, now: Time, later: Time)
    requires DroppedUntil(s, id, x, now) && now <= later
    ensures DroppedUntil(s, id, x, later)
  {
  }

  /** As long as every late span of a dropped trace comes in time, each is dropped, or sent when it comes in a dry
      run; the trace is never started again. */
  lemma {:induction false} LateSpansOfDroppedTracesAreDropped(run: seq<State>, events: seq<Event>, id: string, x: Time,
                                                              now: Time)
    requires IsRun(run, events) && Safe(run[0]) && DroppedUntil(run[0], id, x, now)
    requires |events| > 0 ==> now <= events[0].now
    requires forall i :: 0 <= i < |events| ==> Recognised(run[i], events[i], id, Lapse(events[..i], id, x))
    ensures var end := if events == [] then now else events[|events| - 1].now;
      DroppedUntil(run[|events|], id, Lapse(events, id, x), end)
    ensures Outcome(run[0], run[|events|], id, ReceivedIn(true, events, id), ReceivedIn(false, events, id))
    decreases |events|
  {
    hide Next, Safe, DroppedUntil, Outcome, ReceivedIn, Recognised, Refreshed;
    if |events| > 0 {
      var e, x' := events[0], Refreshed(events[0], id, x);
      assert Next(run[0], e, run[1]) && Recognised(run[0], e, id, Lapse(events[..0], id, x));
      LaterIsDropped(run[0], id, x, now, e.now);
      StepKeeps(run[0], e, run[1]);
      DroppedStep(run[0], e, run[1], id, x);
      forall i | 0 <= i < |events| - 1
        ensures Recognised(run[1..][i], events[1..][i], id, Lapse(events[1..][..i], id, x'))
      {
        assert events[..i + 1][1..] == events[1..][..i] && events[..i + 1][0] == e;
        assert Recognised(run[i + 1], events[i + 1], id, Lapse(events[..i + 1], id, x));
      }
      LateSpansOfDroppedTracesAreDropped(run[1..], events[1..], id, x', e.now);
      OutcomeComposes(run[0], run[1], run[|events|], id, ReceivedIn(true, [e], id), ReceivedIn(false, [e], id),
                      ReceivedIn(true, events[1..], id), ReceivedIn(false, events[1..], id));
      ReceivedInSplit(true, events, id);
      ReceivedInSplit(false, events, id);
    } else {
      OutcomeOfNothing(run[0], id);
      NothingReceivedIn(id);
      assert events == [];
    }
  }

  lemma NothingReceivedIn(id: string)
    ensures ReceivedIn(true, [], id) == [] && ReceivedIn(false, [], id) == []
  {
  }

  /** The decision itself starts the short memory, whether or not the queue in front of the filters has room. */
  lemma DropDecisionIsKnown(s: State, t: Trace, v: Verdict, reason: SendReason, now: Time, cfg: Config)
    requires !t.sent && !v.keep && t.id !in s.live && s.memory.Valid()
    ensures var s' := Decided(s, t, v, reason, now, cfg);
      && DroppedUntil(s', t.id, now + 3_000_000_000, now)
      && (|s.memory.drop.queue| < 1000 ==> t.id in s'.memory.drop.queue)
  {
    var s' := Decided(s, t, v, reason, now, cfg);
    if |s.memory.drop.queue| < 1000 {
      assert s'.memory.drop.queue[|s.memory.drop.queue|] == t.id;
    }
  }

  /** A rotation that the id does not survive. */
  predicate Forgets(s: State, e: Event, id: string) {
    e.Tend? && DropMemory.Rotates(e.part) && id !in s.memory.drop.Survivors()
  }

  /** An id of the current filter stays there through every step but such a rotation. */
  lemma CurrentStays(s: State, e: Event, s': State, id: string)
    requires Safe(s) && Next(s, e, s') && id in s.memory.drop.current
    ensures id in s'.memory.drop.current <==> !Forgets(s, e, id)
  {
    hide Safe;
    if e.Tick? {
      DecidingKeepsDrop(Removed(s, Elements(e.due)), Traces(s.live, e.due), e.verdicts, false, e.now, e.cfg);
    } else if e.Early? {
      DecidingKeepsDrop(s, Victims(Traces(s.live, e.order), e.bytes), e.verdicts, true, e.now, e.cfg);
    }
  }

  /** Decisions leave the current filter alone, and only append to the queue. */
  lemma {:induction false} DecidingKeepsDrop(s: State, ts: seq<Trace>, vs: seq<Verdict>, early: bool, now: Time,
                                             cfg: Config)
    requires |ts| == |vs|
    ensures var drop := DecidedAll(s, ts, vs, early, now, cfg).memory.drop;
      drop.current == s.memory.drop.current && s.memory.drop.queue <= drop.queue
    decreases |ts|
  {
    if ts != [] {
      DecidingKeepsDrop(s, ts[..|ts| - 1], vs[..|ts| - 1], early, now, cfg);
    }
  }

  /** How many ids the events take out of the queue in front of the filters. */
  function Drains(events: seq<Event>): nat {
    if events == [] then 0 else Drains(events[..|events| - 1]) + DrainedBy(events[|events| - 1])
  }

  function DrainedBy(e: Event): nat {
    if e.Tend? && e.part.Drain? then e.part.n else 0
  }

  /** A queued id moves up by what is drained, and when its turn comes, into the current filter. */
  lemma QueueMoves(s: State, e: Event, s': State, id: string, pos: nat)
    requires Safe(s) && Next(s, e, s') && pos < |s.memory.drop.queue| && s.memory.drop.queue[pos] == id
    ensures var n, queue := DrainedBy(e), s'.memory.drop.queue;
      if pos < n then id in s'.memory.drop.current else pos - n < |queue| && queue[pos - n] == id
  {
    hide Safe;
    if e.Tick? {
      DecidingKeepsDrop(Removed(s, Elements(e.due)), Traces(s.live, e.due), e.verdicts, false, e.now, e.cfg);
    } else if e.Early? {
      DecidingKeepsDrop(s, Victims(Traces(s.live, e.order), e.bytes), e.verdicts, true, e.now, e.cfg);
    }
  }

  lemma DrainsSnoc(events: seq<Event>, i: nat)
    requires i < |events|
    ensures Drains(events[..i + 1]) == Drains(events[..i]) + DrainedBy(events[i])
  {
    assert events[..i + 1][..i] == events[..i];
  }

  /** A queued id whose turn comes before its short memory lapses, counting from its last late span, and that no
      later rotation forgets, has every late span come in time. */
  lemma QueuedIsRecognised(run: seq<State>, events: seq<Event>, id: string, x: Time, pos: nat)
    requires IsRun(run, events) && Safe(run[0])
    requires pos < |run[0].memory.drop.queue| && run[0].memory.drop.queue[pos] == id
    requires forall i :: 0 <= i < |events| && Concerns(events[i], id) && Drains(events[..i]) <= pos ==>
               events[i].now < Lapse(events[..i], id, x)
    requires forall i :: 0 <= i < |events| && Drains(events[..i]) > pos ==> !Forgets(run[i], events[i], id)
    ensures forall i :: 0 <= i < |events| ==> Recognised(run[i], events[i], id, Lapse(events[..i], id, x))
  {
    hide Next, Safe, Forgets, Drains, DrainedBy;
    NothingDrained(events);
    for i := 0 to |events|
      invariant Safe(run[i])
      invariant var n, drop := Drains(events[..i]), run[i].memory.drop;
        if pos < n then id in drop.current else pos - n < |drop.queue| && drop.queue[pos - n] == id
      invariant forall k :: 0 <= k < i ==> Recognised(run[k], events[k], id, Lapse(events[..k], id, x))
    {
      assert Next(run[i], events[i], run[i + 1]);
      StepKeeps(run[i], events[i], run[i + 1]);
      DrainsSnoc(events, i);
      if Drains(events[..i]) > pos {
        CurrentStays(run[i], events[i], run[i + 1], id);
      } else {
        QueueMoves(run[i], events[i], run[i + 1], id, pos - Drains(events[..i]));
      }
    }
  }

  /** So they are dropped, or sent when they come in a dry run, and the trace is not started again. */
  lemma QueuedTracesStayDropped(run: seq<State>, events: seq<Event>, id: string, x: Time, now: Time, pos: nat)
    requires IsRun(run, events) && Safe(run[0]) && DroppedUntil(run[0], id, x, now)
    requires |events| > 0 ==> now <= events[0].now
    requires pos < |run[0].memory.drop.queue| && run[0].memory.drop.queue[pos] == id
    requires forall i :: 0 <= i < |events| && Concerns(events[i], id) && Drains(events[..i]) <= pos ==>
               events[i].now < Lapse(events[..i], id, x)
    requires forall i :: 0 <= i < |events| && Drains(events[..i]) > pos ==> !Forgets(run[i], events[i], id)
    ensures Outcome(run[0], run[|events|], id, ReceivedIn(true, events, id), ReceivedIn(false, events, id))
    ensures id !in run[|events|].live
  {
    QueuedIsRecognised(run, events, id, x, pos);
    var end := if events == [] then now else events[|events| - 1].now;
    assert |run| == |events| + 1;
    hide *;
    LateSpansOfDroppedTracesAreDropped(run, events, id, x, now);
    DroppedIsNotLive(run[|events|], id, Lapse(events, id, x), end);
  }

  lemma DroppedIsNotLive(s: State, id: string, x: Time, now: Time)
    requires DroppedUntil(s, id, x, now)
    ensures id !in s.live
  {
  }

  lemma NothingDrained(events: seq<Event>)
    ensures Drains(events[..0]) == 0
  {
  }

  /** An id that is drained before its short memory lapses, counting from its last late span, and that no later
      rotation forgets, has every late span come in time. */
  lemma DrainedInTime(run: seq<State>, events: seq<Event>, id: string, x: Time, drained: nat)
    requires IsRun(run, events) && Safe(run[0]) && drained <= |events| && id in run[drained].memory.drop.current
    requires forall i :: 0 <= i < drained && Concerns(events[i], id) ==> events[i].now < Lapse(events[..i], id, x)
    requires forall i :: drained <= i < |events| ==> !Forgets(run[i], events[i], id)
    ensures forall i :: 0 <= i < |events| ==> Recognised(run[i], events[i], id, Lapse(events[..i], id, x))
  {
    hide Next, Safe, Forgets;
    for i := 0 to |events|
      invariant Safe(run[i]) && (drained <= i ==> id in run[i].memory.drop.current)
      invariant forall k :: 0 <= k < i ==> Recognised(run[k], events[k], id, Lapse(events[..k], id, x))
    {
      assert Next(run[i], events[i], run[i + 1]);
      StepKeeps(run[i], events[i], run[i + 1]);
      if drained <= i {
        CurrentStays(run[i], events[i], run[i + 1], id);
      }
    }
  }
}
