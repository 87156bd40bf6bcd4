/** Why spans are sent and dropped: whatever a worker does with a span goes back to a decision on its trace, or to a
    false positive of the drop filter. */
module CollectorCauses {
  import opened Options
  import opened Spans
  import opened Recency
  import DropMemory
  import opened Decisions
  import opened Deadlines
  import opened Collector
  import opened CollectorSafety
  import opened CollectorMemory

  /** Trace ids: decided to be kept; decided to be dropped, or taken for dropped by a false positive; and those that
      were dropped, or had a span come, in a dry run or outside of one. */
  datatype Causes = Causes(kept: set<string>, denied: set<string>, dry: set<string>, earnest: set<string>)
  {
    predicate MaySend(id: string) {
      id in kept || (id in denied && id in dry)
    }

    predicate MayDrop(id: string) {
      id in denied && id in earnest
    }

    function Plus(c: Causes): Causes {
      Causes(kept + c.kept, denied + c.denied, dry + c.dry, earnest + c.earnest)
    }

    predicate Within(c: Causes) {
      kept <= c.kept && denied <= c.denied && dry <= c.dry && earnest <= c.earnest
    }
  }

  const NO_CAUSES := Causes({}, {}, {}, {})

  /** What one event adds. */
  ghost function CausesOf(s: State, e: Event, s': State): Causes
    requires Next(s, e, s')
  {
    var ts, vs := Batch(s, e, s'), VerdictsOf(e);
    var denied := IdsWith(ts, vs, false)
                  + if e.Receive? && e.collides && e.sp.traceId !in s.live then {e.sp.traceId} else {};
    var touched := if e.Receive? then {e.sp.traceId} else denied;
    Causes(IdsWith(ts, vs, true), denied, if e.cfg.dryRun then touched else {}, if e.cfg.dryRun then {} else touched)
  }

  /** What the memory of decisions holds was decided that way. */
  ghost predicate Founded(b: Book, c: Causes) {
    && (forall i :: 0 <= i < |b.kept| ==> b.kept[i].0 in c.kept)
    && (forall id :: id in b.recent ==> id in c.denied)
    && b.drop.current <= c.denied && b.drop.Survivors() <= c.denied
    && (forall id :: id in b.drop.queue ==> id in c.denied)
  }

  /** A trace handed over was kept, or dropped in a dry run, as its flag says. */
  ghost predicate HandedOver(x: Sendable, c: Causes) {
    && (if x.shouldSend then x.trace.id in c.kept else x.trace.id in c.denied && x.trace.id in c.dry)
    && forall sp :: sp in x.trace.spans ==> sp.traceId == x.trace.id
  }

  /** Every span dropped, sent or handed over has a cause. */
  ghost predicate Explained(s: State, c: Causes) {
    && s.memory.Valid() && Founded(s.memory, c)
    && (forall sp :: sp in s.dropped ==> c.MayDrop(sp.traceId))
    && (forall x :: x in s.emitted ==> c.MaySend(x.span.traceId))
    && (forall x :: x in s.outgoing ==> HandedOver(x, c))
  }

  lemma MoreCauses(s: State, c: Causes, c': Causes)
    requires Explained(s, c) && c.Within(c')
    ensures Explained(s, c')
  {
  }

  lemma AddedKeys(c: Order<string, KeptRecord>, size: int, k: string, v: KeptRecord, keys: set<string>)
    requires (forall i :: 0 <= i < |c| ==> c[i].0 in keys) && k in keys
    ensures forall i :: 0 <= i < |Added(c, size, k, v)| ==> Added(c, size, k, v)[i].0 in keys
    ensures forall i :: 0 <= i < |Without(c, k)| ==> Without(c, k)[i].0 in keys
  {
  }

  lemma RecordedIsFounded(b: Book, id: string, keep: bool, record: KeptRecord, now: Time, c: Causes)
    requires b.Valid() && Founded(b, c) && (if keep then id in c.kept else id in c.denied)
    ensures b.Recorded(id, keep, record, now).Valid() && Founded(b.Recorded(id, keep, record, now), c)
  {
    if keep {
      AddedKeys(b.kept, b.keptSize, id, record, c.kept);
      AddedIsBoundedRecency(b.kept, b.keptSize, id, record);
    }
  }

  /** Deciding a trace is explained by its verdict. */
  lemma DecidedIsExplained(s: State, t: Trace, v: Verdict, reason: SendReason, now: Time, cfg: Config, c: Causes)
    requires Explained(s, c) && !t.sent && forall sp :: sp in t.spans ==> sp.traceId == t.id
    requires if v.keep then t.id in c.kept else t.id in c.denied && t.id in (if cfg.dryRun then c.dry else c.earnest)
    ensures Explained(Decided(s, t, v, reason, now, cfg), c)
  {
    RecordedIsFounded(s.memory, t.id, v.keep, t.(sampleRate := v.rate, keep := v.keep, sent := true).Record(), now, c);
    hide Founded, Book.Recorded, Book.Valid;
  }

  lemma {:induction false} DecidedAllIsExplained(s: State, ts: seq<Trace>, vs: seq<Verdict>, early: bool, now: Time,
                                                 cfg: Config, c: Causes)
    requires |ts| == |vs| && Explained(s, c) && forall t :: t in ts ==> !t.sent
    requires forall t, sp :: t in ts && sp in t.spans ==> sp.traceId == t.id
    requires IdsWith(ts, vs, true) <= c.kept && IdsWith(ts, vs, false) <= c.denied
    requires IdsWith(ts, vs, false) <= if cfg.dryRun then c.dry else c.earnest
    ensures Explained(DecidedAll(s, ts, vs, early, now, cfg), c)
    decreases |ts|
  {
    hide Explained, Decided;
    if ts != [] {
      var n := |ts| - 1;
      assert ts[n].id in IdsWith(ts, vs, vs[n].keep);
      assert forall keep :: IdsWith(ts[..n], vs[..n], keep) <= IdsWith(ts, vs, keep);
      DecidedAllIsExplained(s, ts[..n], vs[..n], early, now, cfg, c);
      DecidedIsExplained(DecidedAll(s, ts[..n], vs[..n], early, now, cfg), ts[n], vs[n],
                         if early then EjectedMemsize else ReasonAt(ts[n], cfg), now, cfg, c);
    }
  }

  /** What is asked about is answered as dropped for a cause, and as kept for another. */
  lemma AskedIsFounded(b: Book, id: string, a: Annotation, now: Time, collides: bool, c: Causes)
    requires b.Valid() && Founded(b, c) && (collides ==> id in c.denied)
    ensures var (answer, b') := b.Asked(id, a, now, collides);
      && b'.Valid() && Founded(b', c)
      && (answer.Dropped? ==> id in c.denied) && (answer.Kept? ==> id in c.kept)
  {
    if Has(b.kept, id) {
      AddedKeys(b.kept, b.keptSize, id, Lookup(b.kept, id).Counted(a), c.kept);
      FrontKeepsOthers(b.kept, id, Lookup(b.kept, id).Counted(a), id);
    }
  }

  lemma SpanIsExplained(s: State, e: Event, s': State, c: Causes)
    requires Safe(s) && e.Receive? && Next(s, e, s') && Explained(s, c) && CausesOf(s, e, s').Within(c)
    ensures Explained(s', c)
  {
    if e.sp.traceId !in s.live {
      AskedIsFounded(s.memory, e.sp.traceId, e.sp.annotation, e.now, e.collides, c);
    }
    hide Book.Asked, Founded, Book.Valid, Conserved, DecidedOnce, HandedOver, Extended;
  }

  lemma BatchIsExplained(s: State, e: Event, s': State, c: Causes)
    requires Safe(s) && (e.Tick? || e.Early?) && Next(s, e, s') && Explained(s, c) && CausesOf(s, e, s').Within(c)
    ensures Explained(s', c)
  {
    BatchStep(s, e, s');
    var ts := Batch(s, e, s');
    hide Next, Batch, DecidedAll, Conserved, DecidedOnce;
    DecidedAllIsExplained(Removed(s, Elements(TraceIds(ts))), ts, VerdictsOf(e), e.Early?, e.now, e.cfg, c);
  }

  lemma UpkeepIsExplained(s: State, e: Event, s': State, c: Causes)
    requires Upkeep(e) && Next(s, e, s') && Explained(s, c)
    ensures Explained(s', c)
  {
    if e.Send? {
      SendingIsExplained(s, e.cfg, c);
    }
  }

  lemma SendingIsExplained(s: State, cfg: Config, c: Causes)
    requires s.outgoing != [] && Explained(s, c)
    ensures Explained(Transmitted(s, cfg), c)
  {
    var t := s.outgoing[0].trace;
    assert HandedOver(s.outgoing[0], c);
    hide Founded, Book.Valid;
    forall x | x in EmissionsOf(t, cfg) ensures c.MaySend(x.span.traceId) {
      assert x.span in t.spans;
    }
  }

  lemma StepIsExplained(s: State, e: Event, s': State, c: Causes)
    requires Safe(s) && Next(s, e, s') && Explained(s, c)
    ensures Explained(s', c.Plus(CausesOf(s, e, s')))
  {
    hide Next, Safe, Explained, CausesOf;
    var c' := c.Plus(CausesOf(s, e, s'));
    MoreCauses(s, c, c');
    if e.Receive? {
      SpanIsExplained(s, e, s', c');
    } else if e.Tick? || e.Early? {
      BatchIsExplained(s, e, s', c');
    } else {
      UpkeepIsExplained(s, e, s', c');
    }
  }

  /** The causes that the first n events of a run add up to. */
  ghost function CausesBy(run: seq<State>, events: seq<Event>, n: nat): Causes
    requires IsRun(run, events) && n <= |events|
  {
    if n == 0 then NO_CAUSES
    else CausesBy(run, events, n - 1).Plus(CausesOf(run[n - 1], events[n - 1], run[n]))
  }

  lemma StartIsExplained(keptSize: int)
    requires keptSize > 0
    ensures Safe(Init(keptSize)) && Explained(Init(keptSize), NO_CAUSES)
  {
  }

  lemma RunSteps(run: seq<State>, events: seq<Event>, n: nat)
    requires IsRun(run, events) && n < |events|
    ensures Next(run[n], events[n], run[n + 1])
  {
  }

  /** In every run from the initial state: each span dropped is of a trace that a decision before it dropped, outside of
      a dry run, or that a false positive took for dropped; each span sent is of a trace that was kept, or dropped in
      a dry run; and what is remembered was decided. */
  lemma {:induction false} RunIsExplained(run: seq<State>, events: seq<Event>, keptSize: int, n: nat)
    requires IsRun(run, events) && run[0] == Init(keptSize) && keptSize > 0 && n <= |events|
    ensures Safe(run[n]) && Explained(run[n], CausesBy(run, events, n))
  {
    hide Next, Safe, CausesOf, Explained;
    if n == 0 {
      StartIsExplained(keptSize);
    } else {
      RunSteps(run, events, n - 1);
      hide IsRun;
      RunIsExplained(run, events, keptSize, n - 1);
      StepKeeps(run[n - 1], events[n - 1], run[n]);
      StepIsExplained(run[n - 1], events[n - 1], run[n], CausesBy(run, events, n - 1));
    }
  }

  lemma {:induction false} SpansOfSendables(q: seq<Sendable>, sp: Span)
    requires sp in OfSendables(q)
    ensures exists x :: x in q && sp in x.trace.spans
  {
    var n := |q| - 1;
    if sp in q[n].trace.spans {
      assert q[n] in q;
    } else {
      SpansOfSendables(q[..n], sp);
    }
  }

  /** Nothing is lost without a drop, and nothing is sent without a decision to: a span of a trace that nothing dropped
      is live, handed over or sent; one of a trace that nothing kept, nor dropped in a dry run, is live or dropped. */
  lemma SpansFollowCauses(s: State, c: Causes, sp: Span)
    requires Safe(s) && Explained(s, c)
    ensures !c.MayDrop(sp.traceId) ==>
              multiset(s.taken)[sp]
              == LiveCount(s.live, sp) + multiset(OfSendables(s.outgoing))[sp] + multiset(OfEmissions(s.emitted))[sp]
    ensures !c.MaySend(sp.traceId) ==> multiset(s.taken)[sp] == LiveCount(s.live, sp) + multiset(s.dropped)[sp]
  {
    hide OfSendables, LiveCount, Shaped, DecidedOnce;
    if !c.MaySend(sp.traceId) {
      if sp in OfSendables(s.outgoing) {
        SpansOfSendables(s.outgoing, sp);
      }
      forall i | 0 <= i < |s.emitted| ensures s.emitted[i].span != sp {
        assert s.emitted[i] in s.emitted;
      }
    }
  }

  lemma SpansFollowDecisions(run: seq<State>, events: seq<Event>, keptSize: int, n: nat, sp: Span)
    requires IsRun(run, events) && run[0] == Init(keptSize) && keptSize > 0 && n <= |events|
    ensures var s, c := run[n], CausesBy(run, events, n);
      && (!c.MayDrop(sp.traceId) ==>
            multiset(s.taken)[sp]
            == LiveCount(s.live, sp) + multiset(OfSendables(s.outgoing))[sp] + multiset(OfEmissions(s.emitted))[sp])
      && (!c.MaySend(sp.traceId) ==> multiset(s.taken)[sp] == LiveCount(s.live, sp) + multiset(s.dropped)[sp])
  {
    RunIsExplained(run, events, keptSize, n);
    hide *;
    SpansFollowCauses(run[n], CausesBy(run, events, n), sp);
  }

  /** An id that nothing dropped is not in the memory of drops. */
  lemma UndeniedIsDropFree(s: State, c: Causes, id: string, now: Time)
    requires Explained(s, c) && id !in c.denied
    ensures DropFree(s.memory, id, now)
  {
  }

  lemma {:induction false} DecidedInParts(s: State, ts: seq<Trace>, vs: seq<Verdict>, k: nat, early: bool, now: Time,
                                          cfg: Config)
    requires |ts| == |vs| && k <= |ts|
    ensures DecidedAll(s, ts, vs, early, now, cfg)
            == DecidedAll(DecidedAll(s, ts[..k], vs[..k], early, now, cfg), ts[k..], vs[k..], early, now, cfg)
    decreases |ts|
  {
    hide Decided;
    if k == |ts| {
      assert ts[..k] == ts && vs[..k] == vs;
    } else {
      var n := |ts| - 1;
      DecidedInParts(s, ts[..n], vs[..n], k, early, now, cfg);
      assert ts[..n][..k] == ts[..k] && vs[..n][..k] == vs[..k];
      assert ts[..n][k..] == ts[k..][..n - k] && vs[..n][k..] == vs[k..][..n - k];
    }
  }

  /** The batch up to and with its k-th trace, and the others. */
  lemma BatchAround(s: State, ts: seq<Trace>, vs: seq<Verdict>, k: nat, early: bool, now: Time, cfg: Config)
    requires |ts| == |vs| && k < |ts|
    ensures var s1 := DecidedAll(s, ts[..k], vs[..k], early, now, cfg);
      var s2 := Decided(s1, ts[k], vs[k], if early then EjectedMemsize else ReasonAt(ts[k], cfg), now, cfg);
      DecidedAll(s, ts, vs, early, now, cfg) == DecidedAll(s2, ts[k + 1..], vs[k + 1..], early, now, cfg)
  {
    DecidedInParts(s, ts, vs, k + 1, early, now, cfg);
    assert ts[..k + 1][..k] == ts[..k] && vs[..k + 1][..k] == vs[..k];
  }

  /** The others of a batch. */
  lemma OthersApart(ts: seq<Trace>, k: nat)
    requires k < |ts| && (forall i, j :: 0 <= i < j < |ts| ==> ts[i].id != ts[j].id)
    requires forall t, sp :: t in ts && sp in t.spans ==> sp.traceId == t.id
    ensures forall t :: t in ts[..k] || t in ts[k + 1..] ==> t.id != ts[k].id
    ensures forall t, i :: (t in ts[..k] || t in ts[k + 1..]) && 0 <= i < |t.spans| ==> t.spans[i].traceId != ts[k].id
  {
    forall t | t in ts[..k] || t in ts[k + 1..] ensures t in ts && t.id != ts[k].id {
    }
  }

  lemma RestIsUsed(ts: seq<Trace>, vs: seq<Verdict>, k: nat)
    requires |ts| == |vs| && k < |ts| && forall i, j :: 0 <= i < j < |ts| ==> ts[i].id != ts[j].id
    ensures IdsWith(ts[k + 1..], vs[k + 1..], true) <= IdsWith(ts, vs, true) - {ts[k].id}
  {
    var rest, verdicts := ts[k + 1..], vs[k + 1..];
    forall id | id in IdsWith(rest, verdicts, true) ensures id in IdsWith(ts, vs, true) - {ts[k].id} {
      var i :| 0 <= i < |rest| && verdicts[i].keep && rest[i].id == id;
      assert ts[k + 1 + i].id == id && vs[k + 1 + i].keep;
    }
  }

  /** A trace that a batch keeps is known as kept after the batch, unless more others were kept than are remembered. */
  lemma KeptInBatch(s: State, ts: seq<Trace>, vs: seq<Verdict>, k: nat, early: bool, now: Time, cfg: Config)
    requires |ts| == |vs| && k < |ts| && vs[k].keep && !ts[k].sent && ts[k].id !in s.live
    requires forall i, j :: 0 <= i < j < |ts| ==> ts[i].id != ts[j].id
    requires forall t, sp :: t in ts && sp in t.spans ==> sp.traceId == t.id
    requires s.memory.Valid() && DropFree(s.memory, ts[k].id, now)
    requires |IdsWith(ts, vs, true) - {ts[k].id}| < s.memory.keptSize
    ensures var s', id := DecidedAll(s, ts, vs, early, now, cfg), ts[k].id;
      && KnownKept(s', id, now) && Newer(s'.memory.kept, id) <= IdsWith(ts, vs, true) - {id}
      && var r := Lookup(s'.memory.kept, id);
         r.rate == Wrap32(vs[k].rate) && Tallies(r, ts[k].spans) && Balanced(r)
  {
    var id, used := ts[k].id, IdsWith(ts, vs, true) - {ts[k].id};
    var s1 := DecidedAll(s, ts[..k], vs[..k], early, now, cfg);
    var reason := if early then EjectedMemsize else ReasonAt(ts[k], cfg);
    var s2 := Decided(s1, ts[k], vs[k], reason, now, cfg);
    BatchAround(s, ts, vs, k, early, now, cfg);
    OthersApart(ts, k);
    RestIsUsed(ts, vs, k);
    hide DecidedAll, Decided, IdsWith, Newer, DropFree, Book.Valid;
    DecidingOthers(s, ts[..k], vs[..k], early, now, cfg, id);
    DecidingKeepsLive(s, ts[..k], vs[..k], early, now, cfg);
    DecidingKeepsSize(s, ts[..k], vs[..k], early, now, cfg);
    KeptDecisionIsKnown(s1, ts[k], vs[k], reason, now, cfg);
    SizeOfDecided(s1, ts[k], vs[k], reason, now, cfg);
    DecidingOthers(s2, ts[k + 1..], vs[k + 1..], early, now, cfg, id);
    SurvivesDecisions(s2, ts[k + 1..], vs[k + 1..], early, now, cfg, id, used);
    DecidingKeepsLive(s2, ts[k + 1..], vs[k + 1..], early, now, cfg);
  }

  lemma SizeOfDecided(s: State, t: Trace, v: Verdict, reason: SendReason, now: Time, cfg: Config)
    ensures Decided(s, t, v, reason, now, cfg).memory.keptSize == s.memory.keptSize
  {
  }

  lemma Position(ts: seq<Trace>, vs: seq<Verdict>, keep: bool, id: string) returns (k: nat)
    requires |ts| == |vs| && id in IdsWith(ts, vs, keep)
    ensures k < |ts| && vs[k].keep == keep && ts[k].id == id
  {
    k :| 0 <= k < |ts| && vs[k].keep == keep && ts[k].id == id;
  }

  /** What a worker knows of a trace after a tick or an early ejection that keeps it. */
  lemma KeptByStep(s: State, e: Event, s': State, id: string)
    requires Safe(s) && (e.Tick? || e.Early?) && Next(s, e, s') && s.memory.Valid() && DropFree(s.memory, id, e.now)
    requires id in IdsWith(Batch(s, e, s'), VerdictsOf(e), true)
    requires |IdsWith(Batch(s, e, s'), VerdictsOf(e), true) - {id}| < s.memory.keptSize
    ensures KnownKept(s', id, e.now)
    ensures Newer(s'.memory.kept, id) <= IdsWith(Batch(s, e, s'), VerdictsOf(e), true) - {id}
    ensures Balanced(Lookup(s'.memory.kept, id))
  {
    hide *;
    var ts, vs := Batch(s, e, s'), VerdictsOf(e);
    BatchReady(s, e, s');
    var k := Position(ts, vs, true, id);
    KeptInBatch(Removed(s, Elements(TraceIds(ts))), ts, vs, k, e.Early?, e.now, e.cfg);
  }

  /** From the decision on. In a run from the initial state a batch keeps a trace that nothing dropped before; then,
      without false positives for it, every later span of it is sent and counted, as long as fewer other traces were
      kept with it, or used since its last late span, than the cache holds. */
  lemma KeptTracesStaySent(before: seq<State>, past: seq<Event>, keptSize: int, e: Event, run: seq<State>,
                           events: seq<Event>, id: string, used: set<string>)
    requires IsRun(before, past) && before[0] == Init(keptSize) && keptSize > 0
    requires id !in CausesBy(before, past, |past|).denied
    requires IsRun(run, events) && |events| > 0 && Next(before[|past|], e, run[0]) && e.now <= events[0].now
    requires (e.Tick? || e.Early?) && id in IdsWith(Batch(before[|past|], e, run[0]), VerdictsOf(e), true)
    requires used == IdsWith(Batch(before[|past|], e, run[0]), VerdictsOf(e), true) - {id}
    requires forall i :: 0 <= i < |events| && Concerns(events[i], id) ==> !events[i].collides
    requires forall i :: 0 <= i <= |events| ==> |UsedSince(run, events[..i], id, used)| < run[i].memory.keptSize
    ensures Counting(run[0], run[|events|], id, Received(events, id), events[|events| - 1].now)
    ensures Balanced(Lookup(run[0].memory.kept, id))
  {
    var s := before[|past|];
    RunIsExplained(before, past, keptSize, |past|);
    UndeniedIsDropFree(s, CausesBy(before, past, |past|), id, e.now);
    ValidWhenExplained(s, CausesBy(before, past, |past|));
    SizeStays(s, e, run[0]);
    assert UsedSince(run, events[..0], id, used) == used;
    KeptByStep(s, e, run[0], id);
    StepKeeps(s, e, run[0]);
    hide *;
    LaterIsKnown(run[0], id, e.now, events[0].now);
    RecentlyUsedTracesAreSent(run, events, id, used);
  }

  lemma ValidWhenExplained(s: State, c: Causes)
    requires Explained(s, c)
    ensures s.memory.Valid()
  {
  }

  lemma LaterIsKnown(s: State, id: string, now: Time, later: Time)
    requires KnownKept(s, id, now) && now <= later
    ensures KnownKept(s, id, later)
  {
  }

  /** Decisions do not resize the cache. */
  lemma SizeStays(s: State, e: Event, s': State)
    requires Safe(s) && (e.Tick? || e.Early?) && Next(s, e, s')
    ensures s'.memory.keptSize == s.memory.keptSize
  {
    hide *;
    BatchReady(s, e, s');
    var ts := Batch(s, e, s');
    DecidingKeepsSize(Removed(s, Elements(TraceIds(ts))), ts, VerdictsOf(e), e.Early?, e.now, e.cfg);
  }

  /** A trace that a batch drops is in the short memory after the batch, and queued if there is room. */
  lemma DroppedInBatch(s: State, ts: seq<Trace>, vs: seq<Verdict>, k: nat, early: bool, now: Time, cfg: Config)
    requires |ts| == |vs| && k < |ts| && !vs[k].keep && !ts[k].sent && ts[k].id !in s.live && s.memory.Valid()
    requires forall i, j :: 0 <= i < j < |ts| ==> ts[i].id != ts[j].id
    requires forall t, sp :: t in ts && sp in t.spans ==> sp.traceId == t.id
    ensures var s', id := DecidedAll(s, ts, vs, early, now, cfg), ts[k].id;
      && DroppedUntil(s', id, now + RECENT_TTL, now)
      && (|s.memory.drop.queue| + |ts| <= DropMemory.ADD_QUEUE_DEPTH ==> id in s'.memory.drop.queue)
  {
    var id := ts[k].id;
    var s1 := DecidedAll(s, ts[..k], vs[..k], early, now, cfg);
    var reason := if early then EjectedMemsize else ReasonAt(ts[k], cfg);
    var s2 := Decided(s1, ts[k], vs[k], reason, now, cfg);
    BatchAround(s, ts, vs, k, early, now, cfg);
    OthersApart(ts, k);
    hide DecidedAll, Decided;
    DecidingOthers(s, ts[..k], vs[..k], early, now, cfg, id);
    DecidingKeepsLive(s, ts[..k], vs[..k], early, now, cfg);
    DecidingQueues(s, ts[..k], vs[..k], early, now, cfg);
    DropDecisionIsKnown(s1, ts[k], vs[k], reason, now, cfg);
    DecidingKeepsEntry(s2, ts[k + 1..], vs[k + 1..], early, now, cfg, id);
    DecidingKeepsDrop(s2, ts[k + 1..], vs[k + 1..], early, now, cfg);
    DecidingKeepsLive(s2, ts[k + 1..], vs[k + 1..], early, now, cfg);
  }

  lemma {:induction false} DecidingQueues(s: State, ts: seq<Trace>, vs: seq<Verdict>, early: bool, now: Time,
                                          cfg: Config)
    requires |ts| == |vs|
    ensures |DecidedAll(s, ts, vs, early, now, cfg).memory.drop.queue| <= |s.memory.drop.queue| + |ts|
    decreases |ts|
  {
    if ts != [] {
      DecidingQueues(s, ts[..|ts| - 1], vs[..|ts| - 1], early, now, cfg);
    }
  }

  /** A decision to drop a trace starts its short memory, and queues it if there is room for the batch. */
  lemma DroppedByDecision(s: State, e: Event, s': State, id: string)
    requires Safe(s) && Next(s, e, s') && s.memory.Valid() && (e.Tick? || e.Early?)
    requires id in IdsWith(Batch(s, e, s'), VerdictsOf(e), false)
    ensures DroppedUntil(s', id, e.now + RECENT_TTL, e.now)
    ensures |s.memory.drop.queue| + |Batch(s, e, s')| <= DropMemory.ADD_QUEUE_DEPTH ==> id in s'.memory.drop.queue
  {
    hide *;
    var ts, vs := Batch(s, e, s'), VerdictsOf(e);
    BatchReady(s, e, s');
    var k := Position(ts, vs, false, id);
    DroppedInBatch(Removed(s, Elements(TraceIds(ts))), ts, vs, k, e.Early?, e.now, e.cfg);
  }

  /** From the decision on. In a run from the initial state a batch drops a trace and queues it at a position; then
      every later span of it is dropped, or sent when it comes in a dry run, and the trace is not started again, as
      long as its late spans come within the short memory until its turn in the queue has come, and no rotation
      forgets it after that. */
  lemma DroppedTracesStayDropped(before: seq<State>, past: seq<Event>, keptSize: int, e: Event, run: seq<State>,
                                 events: seq<Event>, id: string, pos: nat)
    requires IsRun(before, past) && before[0] == Init(keptSize) && keptSize > 0
    requires IsRun(run, events) && Next(before[|past|], e, run[0]) && (|events| > 0 ==> e.now <= events[0].now)
    requires (e.Tick? || e.Early?) && id in IdsWith(Batch(before[|past|], e, run[0]), VerdictsOf(e), false)
    requires pos < |run[0].memory.drop.queue| && run[0].memory.drop.queue[pos] == id
    requires forall i :: 0 <= i < |events| && Concerns(events[i], id) && Drains(events[..i]) <= pos ==>
               events[i].now < Lapse(events[..i], id, e.now + RECENT_TTL)
    requires forall i :: 0 <= i < |events| && Drains(events[..i]) > pos ==> !Forgets(run[i], events[i], id)
    ensures Outcome(run[0], run[|events|], id, ReceivedIn(true, events, id), ReceivedIn(false, events, id))
    ensures id !in run[|events|].live
  {
    assert |before| == |past| + 1;
    hide *;
    var s := before[|past|];
    RunIsExplained(before, past, keptSize, |past|);
    ValidWhenExplained(s, CausesBy(before, past, |past|));
    DroppedByDecision(s, e, run[0], id);
    StepKeeps(s, e, run[0]);
    QueuedTracesStayDropped(run, events, id, e.now + RECENT_TTL, e.now, pos);
  }
}
