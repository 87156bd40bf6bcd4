/** collect/collector_worker.go and the parts of collect/collect.go that it calls, as a class whose methods
    refine the steps of module Collector. */
module Worker {
  import opened Options
  import opened Spans
  import opened Decisions
  import opened Deadlines
  import opened Traces
  import opened TraceCache
  import opened SentCache
  import DropMemory
  import C = Collector
  import CollectorSafety

  datatype SendableTrace = SendableTrace(trace: Trace, shouldSend: bool, reason: C.SendReason)

  class CollectorWorker {
    const cache: DefaultInMemCache
    const sampleCache: CuckooSentCache
    /** The channel to the sender, and what the transmission was given. */
    var tracesToSend: seq<SendableTrace>
    var transmission: seq<C.Emission>
    /** The abstract state, histories included. */
    ghost var state: C.State
    ghost var Repr: set<object>

    ghost predicate Owned()
      reads this, cache, Repr
    {
      && this in Repr && cache in Repr && sampleCache in Repr && sampleCache.Repr <= Repr
      && this !in sampleCache.Repr && cache !in sampleCache.Repr
      && (forall id :: id in cache.traces ==> cache.traces[id] in Repr && cache.traces[id] !in sampleCache.Repr)
      && (forall i :: 0 <= i < |tracesToSend| ==>
            tracesToSend[i].trace in Repr && tracesToSend[i].trace !in sampleCache.Repr)
    }

    /** Cached traces outside `hand` are as in the abstract state, and have not been counted yet unless
        they were sent. */
    ghost predicate LiveMirrored(hand: set<Trace>)
      requires Owned()
      reads this, Repr
    {
      && state.queue == cache.pq && state.live.Keys == cache.traces.Keys
      && forall id :: id in cache.traces && cache.traces[id] !in hand ==>
           state.live[id] == cache.traces[id].View() && Countable(cache.traces[id])
    }

    static ghost predicate Countable(t: Trace)
      reads t
    {
      t.FreshCounts() && (!t.sent ==> t.memo == ZERO)
    }

    /** Traces handed to the sender are as they were handed over. */
    ghost predicate OutMirrored()
      requires Owned()
      reads this, Repr
    {
      && |tracesToSend| == |state.outgoing|
      && forall i {:trigger tracesToSend[i]} :: 0 <= i < |tracesToSend| ==>
           && tracesToSend[i].trace.View() == state.outgoing[i].trace && tracesToSend[i].trace.FreshCounts()
           && tracesToSend[i].shouldSend == state.outgoing[i].shouldSend
           && tracesToSend[i].reason == state.outgoing[i].reason
           && tracesToSend[i].trace.sent
    }

    ghost predicate Coherent(hand: set<Trace>)
      reads this, cache, Repr
    {
      && Owned() && cache.Valid() && sampleCache.Valid()
      && state.memory == sampleCache.View() && state.emitted == transmission
      && LiveMirrored(hand) && OutMirrored()
    }

    ghost predicate Valid()
      reads this, cache, Repr
    {
      Coherent({})
    }

    constructor (keptSize: nat, droppedSize: nat)
      requires keptSize > 0
      ensures Valid() && fresh(Repr) && state == C.Init(keptSize)
    {
      hide CuckooSentCache.Valid, CuckooSentCache.View;
      cache := new DefaultInMemCache();
      sampleCache := new CuckooSentCache(keptSize, droppedSize);
      tracesToSend, transmission := [], [];
      state := C.Init(keptSize);
      new;
      Repr := {this, cache} + sampleCache.Repr;
    }

    /** The rest of the object is as it was, and what it remembers is what the cache of decisions holds. */
    twostate lemma Remembered(hand: set<Trace>)
      requires old(Coherent(hand)) && sampleCache.Valid() && unchanged(cache)
      requires fresh(sampleCache.Repr - old(sampleCache.Repr)) && Repr == old(Repr) + sampleCache.Repr
      requires unchanged(old(Repr) - old(sampleCache.Repr) - {this}) && tracesToSend == old(tracesToSend)
      requires state.memory == sampleCache.View() && state.live == old(state).live && state.queue == old(state).queue
      requires state.outgoing == old(state).outgoing && state.emitted == transmission
      ensures Coherent(hand)
    {
      hide CuckooSentCache.Valid, CuckooSentCache.View, CountsOf, DefaultInMemCache.Valid;
    }

    /** The cache changed, and nothing that was handed over. */
    twostate lemma Recached(hand: set<Trace>)
      requires old(Coherent(hand)) && cache.Valid() && old(Repr) <= Repr && unchanged(old(Repr) - {this, cache})
      requires tracesToSend == old(tracesToSend) && transmission == old(transmission)
      requires state == old(state).(live := state.live, queue := state.queue, created := state.created)
      requires forall id :: id in cache.traces ==> cache.traces[id] in Repr && cache.traces[id] !in sampleCache.Repr
      requires state.queue == cache.pq && state.live.Keys == cache.traces.Keys
      requires forall id :: id in cache.traces ==>
                 state.live[id] == cache.traces[id].View() && Countable(cache.traces[id])
      ensures Valid()
    {
      hide CuckooSentCache.Valid, CuckooSentCache.View, CountsOf, DefaultInMemCache.Valid;
    }

    method DealWithSentTrace(answer: Answer, sp: Span, cfg: C.Config)
      requires Valid() && !answer.Unknown?
      modifies this`transmission, this`state
      ensures Valid() && state == C.Obeyed(old(state), answer, sp, cfg)
    {
      hide Coherent, CuckooSentCache.Valid, CuckooSentCache.View;
      Owns();
      var keep := answer.Kept?;
      if cfg.dryRun {
        if !keep {
          transmission := transmission + [C.Emission(sp, true, sp.sampleRate, C.NoMarks)];
          state := C.Obeyed(state, answer, sp, cfg);
          Remembered({});
          return;
        }
      }
      if keep {
        var rate := C.MergedRate(sp.sampleRate, answer.record.rate, cfg.dryRun);
        var marks := C.MarksFor(sp, answer.record.total, answer.record.counts, cfg);
        transmission := transmission + [C.Emission(sp, true, rate, marks)];
      }
      state := C.Obeyed(state, answer, sp, cfg);
      Remembered({});
    }

    method StartTrace(sp: Span, now: Time, cfg: C.Config) returns (t: Trace)
      requires Valid() && sp.traceId !in cache.traces
      modifies this`state, this`Repr, cache
      ensures Valid() && fresh(Repr - old(Repr)) && state == C.Started(old(state), sp, now, cfg)
      ensures sp.traceId in cache.traces && cache.traces[sp.traceId] == t && !t.sent
    {
      hide CuckooSentCache.Valid, CuckooSentCache.View, CountsOf, DefaultInMemCache.Valid, C.NewTrace;
      t := NewCached(cache, sp, now, cfg);
      Repr := Repr + {t};
      state := C.Started(state, sp, now, cfg);
      Recached({});
    }

    static method NewCached(cache: DefaultInMemCache, sp: Span, now: Time, cfg: C.Config) returns (t: Trace)
      requires cache.Valid() && sp.traceId !in cache.traces
      modifies cache
      ensures fresh(t) && t.View() == C.NewTrace(sp, now, cfg) && t.memo == ZERO && !t.sent
      ensures cache.Valid() && cache.traces == old(cache.traces)[sp.traceId := t]
      ensures cache.pq == old(cache.pq)[sp.traceId := C.NewTrace(sp, now, cfg).sendBy]
      ensures C.NewTrace(sp, now, cfg).id == sp.traceId
    {
      t := new Trace(sp, now, cfg.TraceTimeout());
      cache.Set(t);
    }

    /** Adds the span; a changed deadline goes through the trace and then through the cache. */
    method AbsorbSpan(t: Trace, sp: Span, now: Time, cfg: C.Config)
      requires Valid() && sp.traceId in cache.traces && cache.traces[sp.traceId] == t && !t.sent
      modifies this`state, cache, t
      ensures Valid() && Repr == old(Repr) && state == C.Absorbed(old(state), sp, now, cfg)
    {
      hide C.Extended, CuckooSentCache.Valid, CuckooSentCache.View, CountsOf, DefaultInMemCache.Valid;
      ExtendCached(cache, t, sp, now, cfg);
      state := C.Absorbed(state, sp, now, cfg);
    }

    static method ExtendCached(cache: DefaultInMemCache, t: Trace, sp: Span, now: Time, cfg: C.Config)
      requires cache.Valid() && sp.traceId in cache.traces && cache.traces[sp.traceId] == t && t.memo == ZERO
      modifies cache, t
      ensures cache.Valid() && cache.traces == old(cache.traces)
      ensures t.View() == C.Extended(old(t.View()), sp, now, cfg) && t.memo == ZERO
      ensures cache.pq == if t.sendBy != old(t.sendBy) then old(cache.pq)[sp.traceId := t.sendBy] else old(cache.pq)
      ensures forall id :: id in cache.traces && id != sp.traceId ==> cache.traces[id] != t
    {
      hide C.Extended;
      assert forall id :: id in cache.traces ==> cache.Agrees(id);
      var moved := Extend(t, sp, now, cfg);
      if moved {
        cache.Set(t);
      }
    }

    static method Extend(t: Trace, sp: Span, now: Time, cfg: C.Config) returns (moved: bool)
      requires t.memo == ZERO
      modifies t
      ensures t.View() == C.Extended(old(t.View()), sp, now, cfg) && t.memo == ZERO
      ensures moved == (t.sendBy != old(t.sendBy)) && t.sent == old(t.sent)
    {
      moved := false;
      t.AddSpan(sp);
      var mark := false;
      var timeout := cfg.SendDelay();
      if sp.isRoot {
        mark := true;
        t.root := Some(sp);
      }
      if cfg.spanLimit > 0 && Wrap32(|t.spans|) > cfg.spanLimit {
        mark := true;
        timeout := 0;
      }
      if mark {
        var updatedSendBy := now + timeout;
        if t.sendBy > updatedSendBy {
          t.sendBy := updatedSendBy;
          moved := true;
        }
      }
    }

    /** Asks the cache of decisions about the trace of a span. */
    method Ask(sp: Span, now: Time, collides: bool) returns (answer: Answer)
      requires Valid()
      modifies this`state, this`Repr, sampleCache.Repr
      ensures Valid() && fresh(Repr - old(Repr))
      ensures (answer, state.memory) == old(state).memory.Asked(sp.traceId, sp.annotation, now, collides)
      ensures state == old(state).(memory := state.memory) && cache.traces == old(cache.traces)
      ensures forall id :: id in cache.traces ==> cache.traces[id].View() == old(cache.traces[id].View())
    {
      hide Coherent, CuckooSentCache.Valid, Book.Asked;
      Owns();
      answer := sampleCache.CheckSpan(sp.traceId, sp.annotation, now, collides);
      Repr := Repr + sampleCache.Repr;
      state := state.(memory := sampleCache.View());
      Remembered({});
    }

    method Find(id: string) returns (t: Trace?)
      requires Valid()
      ensures t == null ==> id !in cache.traces && id !in state.live
      ensures t != null ==>
                id in cache.traces && cache.traces[id] == t && id in state.live && state.live[id] == t.View()
    {
      t := cache.Get(id);
    }

    /** The record of a trace that was sent but is not remembered. */
    method RecordOf(t: Trace, id: string) returns (record: KeptRecord)
      requires Valid() && id in cache.traces && cache.traces[id] == t && t.sent
      modifies t`memo
      ensures Valid() && record == t.View().Record() && t.View() == old(t.View())
    {
      hide CuckooSentCache.Valid, CuckooSentCache.View;
      var counts := t.SpanCounts();
      record := NewRecord(t.sampleRate, |t.spans|, counts);
      assert LiveMirrored({}) && OutMirrored();
    }

    /** A span without a cached trace: it obeys a remembered decision, or starts a trace. */
    method ObeyOrStart(sp: Span, now: Time, cfg: C.Config, collides: bool) returns (t: Trace?)
      requires Valid() && sp.traceId !in cache.traces
      modifies Repr
      ensures Valid() && fresh(Repr - old(Repr))
      ensures var (answer, memory) := old(state).memory.Asked(sp.traceId, sp.annotation, now, collides);
        var s := old(state).(memory := memory);
        if t == null then !answer.Unknown? && state == C.Obeyed(s, answer, sp, cfg)
        else answer.Unknown? && state == C.Started(s, sp, now, cfg)
             && sp.traceId in cache.traces && cache.traces[sp.traceId] == t && !t.sent
    {
      hide Coherent, Book.Asked, C.Absorbed, C.Started, C.Obeyed;
      Owns();
      var answer := Ask(sp, now, collides);
      if !answer.Unknown? {
        DealWithSentTrace(answer, sp, cfg);
        return null;
      }
      Owns();
      t := StartTrace(sp, now, cfg);
    }

    /** The decision on a trace that is still cached although it was sent: remembered, or its own record. */
    method AnswerFor(t: Trace, sp: Span, now: Time, collides: bool) returns (answer: Answer)
      requires Valid() && sp.traceId in cache.traces && cache.traces[sp.traceId] == t && t.sent
      modifies Repr
      ensures Valid() && fresh(Repr - old(Repr)) && !answer.Unknown?
      ensures var (known, memory) := old(state).memory.Asked(sp.traceId, sp.annotation, now, collides);
        && answer == (if known.Unknown? then Kept(old(t.View()).Record()) else known)
        && state == old(state).(memory := memory)
    {
      hide Coherent, Book.Asked, C.Obeyed, C.Trace.Record;
      Owns();
      answer := Ask(sp, now, collides);
      if answer.Unknown? {
        Owns();
        var record := RecordOf(t, sp.traceId);
        answer := Kept(record);
      }
    }

    method ObeySent(t: Trace, sp: Span, now: Time, cfg: C.Config, collides: bool)
      requires Valid() && sp.traceId in cache.traces && cache.traces[sp.traceId] == t && t.sent
      modifies Repr
      ensures Valid() && fresh(Repr - old(Repr))
      ensures var (answer, memory) := old(state).memory.Asked(sp.traceId, sp.annotation, now, collides);
        state == C.Obeyed(old(state).(memory := memory),
                          if answer.Unknown? then Kept(old(t.View()).Record()) else answer, sp, cfg)
    {
      hide Coherent, Book.Asked, C.Obeyed, C.Trace.Record;
      var answer := AnswerFor(t, sp, now, collides);
      Owns();
      DealWithSentTrace(answer, sp, cfg);
    }

    method ProcessSpan(sp: Span, now: Time, cfg: C.Config, collides: bool)
      requires Valid()
      modifies Repr
      ensures Valid() && fresh(Repr - old(Repr)) && state == C.Processed(old(state), sp, now, cfg, collides)
    {
      hide Coherent, Book.Asked, C.Absorbed, C.Started, C.Obeyed, C.Trace.Record;
      Owns();
      Take(sp);
      var t := Find(sp.traceId);
      if t == null {
        t := ObeyOrStart(sp, now, cfg, collides);
        Owns();
        if t == null {
          return;
        }
      }
      if t.sent {
        ObeySent(t, sp, now, cfg, collides);
        return;
      }
      AbsorbSpan(t, sp, now, cfg);
    }

    ghost method Take(sp: Span)
      requires Valid()
      modifies this`state
      ensures Valid() && state == old(state).(taken := old(state).taken + [sp])
    {
      hide Coherent, CuckooSentCache.Valid, CuckooSentCache.View;
      Owns();
      state := state.(taken := state.taken + [sp]);
      Remembered({});
    }

    lemma Owns()
      requires Valid()
      ensures this in Repr && cache in Repr && sampleCache in sampleCache.Repr && sampleCache.Repr <= Repr
      ensures this !in sampleCache.Repr && cache !in sampleCache.Repr && sampleCache.Valid()
      ensures state.memory == sampleCache.View() && state.emitted == transmission && cache.Valid()
      ensures forall id :: id in cache.traces ==> cache.traces[id] in Repr && cache.traces[id] !in sampleCache.Repr
      ensures forall i :: 0 <= i < |tracesToSend| ==> tracesToSend[i].trace in Repr
    {
    }

    lemma HandOwns(hand: set<Trace>)
      requires Coherent(hand)
      ensures this in Repr && cache in Repr && sampleCache in sampleCache.Repr && sampleCache.Repr <= Repr
      ensures this !in sampleCache.Repr && cache !in sampleCache.Repr && sampleCache.Valid()
      ensures state.memory == sampleCache.View() && state.emitted == transmission
    {
    }

    /** In a state that a run of the worker reaches, no cached trace was sent: the branch of ProcessSpan for sent
        traces and the failure of MakeDecision are never taken. */
    lemma NoCachedTraceWasSent()
      requires Valid() && CollectorSafety.Safe(state)
      ensures forall id :: id in cache.traces ==> !cache.traces[id].sent
    {
      forall id | id in cache.traces ensures !cache.traces[id].sent {
        assert state.live[id] == cache.traces[id].View();
      }
    }

    /** A trace whose decision is being made: owned, and counted at most after its last span. */
    ghost predicate InHand(t: Trace)
      reads this, t, sampleCache
    {
      t in Repr && t !in sampleCache.Repr && Countable(t)
    }

    /** Fails on a trace that was sent. The verdict is the sampler's. */
    method MakeDecision(t: Trace, v: C.Verdict, now: Time, ghost hand: set<Trace>) returns (ok: bool)
      requires Coherent(hand) && t in hand && InHand(t)
      modifies this`state, this`Repr, t`sampleRate, t`keep, t`memo, sampleCache.Repr
      ensures Coherent(hand) && Grown(old(Repr), old(sampleCache.Repr)) && t.FreshCounts()
      ensures ok == !t.sent == !old(t.sent)
      ensures !ok ==> state == old(state) && t.View() == old(t.View()) && (t.sent ==> Countable(t))
      ensures ok ==> t.View() == old(t.View()).(sampleRate := v.rate, keep := v.keep)
      ensures ok ==> state == old(state).(memory := old(state).memory.Recorded(t.id, v.keep, t.View().Record(), now),
                                          decided := old(state).decided + [t.id])
    {
      hide Coherent, CountsOf;
      if t.sent {
        return false;
      }
      var counts := Judge(t, v, hand);
      Record(t, counts, now, hand);
      ok := true;
    }

    /** The footprint grew by new objects of the cache of decisions at most. */
    twostate predicate Grown(was: set<object>, wasSample: set<object>)
      reads this, sampleCache
    {
      was <= Repr && fresh(Repr - was) && fresh(sampleCache.Repr - wasSample)
    }

    method Judge(t: Trace, v: C.Verdict, ghost hand: set<Trace>) returns (counts: Counts)
      requires Coherent(hand) && t in hand && t !in sampleCache.Repr && t.FreshCounts() && !t.sent
      modifies t`sampleRate, t`keep, t`memo
      ensures Coherent(hand) && t.View() == old(t.View()).(sampleRate := v.rate, keep := v.keep)
      ensures t.FreshCounts() && (v.keep ==> counts == CountsOf(t.spans))
    {
      hide CuckooSentCache.Valid, CuckooSentCache.View, CountsOf;
      counts := SetVerdict(t, v);
    }

    static method SetVerdict(t: Trace, v: C.Verdict) returns (counts: Counts)
      requires t.FreshCounts()
      modifies t`sampleRate, t`keep, t`memo
      ensures t.View() == old(t.View()).(sampleRate := v.rate, keep := v.keep)
      ensures t.FreshCounts() && (v.keep ==> counts == CountsOf(t.spans))
    {
      t.sampleRate := v.rate;
      t.keep := v.keep;
      counts := ZERO;
      if v.keep {
        counts := t.SpanCounts();
      }
    }

    lemma DroppedRecordIsIgnored(b: Book, id: string, r: KeptRecord, r': KeptRecord, now: Time)
      ensures b.Recorded(id, false, r, now) == b.Recorded(id, false, r', now)
    {
    }

    method Record(t: Trace, counts: Counts, now: Time, ghost hand: set<Trace>)
      requires Coherent(hand) && t !in sampleCache.Repr && (t.keep ==> counts == CountsOf(t.spans))
      modifies this`state, this`Repr, sampleCache.Repr
      ensures Coherent(hand) && Grown(old(Repr), old(sampleCache.Repr))
      ensures state == old(state).(memory := old(state).memory.Recorded(t.id, t.keep, t.View().Record(), now),
                                   decided := old(state).decided + [t.id])
    {
      hide Coherent, CuckooSentCache.Valid, Book.Recorded, CountsOf;
      HandOwns(hand);
      DroppedRecordIsIgnored(state.memory, t.id, NewRecord(t.sampleRate, |t.spans|, counts), t.View().Record(), now);
      sampleCache.Record(t.id, t.sampleRate, |t.spans|, counts, t.keep, now);
      Repr := Repr + sampleCache.Repr;
      state := state.(memory := sampleCache.View(), decided := state.decided + [t.id]);
      Remembered(hand);
    }

    method Send(t: Trace, shouldSend: bool, reason: C.SendReason, cfg: C.Config, ghost hand: set<Trace>)
      requires Coherent(hand) && t in hand && t in Repr && t !in sampleCache.Repr && t.FreshCounts()
      modifies this`state, this`tracesToSend, t`sent, t`memo
      ensures Coherent(hand) && t.sent && t.FreshCounts() && t.View() == old(t.View()).(sent := true)
      ensures old(t.sent) ==> state == old(state)
      ensures !old(t.sent) && !t.keep && !cfg.dryRun ==> state == old(state).(dropped := old(state).dropped + t.spans)
      ensures !old(t.sent) && (t.keep || cfg.dryRun) ==>
                state == old(state).(outgoing := old(state).outgoing + [C.Sendable(t.View(), shouldSend, reason)])
    {
      hide Coherent, CuckooSentCache.Valid, CuckooSentCache.View, CountsOf;
      if t.sent {
        return;
      }
      MarkSent(t, hand);
      if !t.keep && !cfg.dryRun {
        Discard(t.spans, hand);
        return;
      }
      HandOver(t, shouldSend, reason, cfg, hand);
    }

    ghost method Discard(spans: seq<Span>, hand: set<Trace>)
      requires Coherent(hand)
      modifies this`state
      ensures Coherent(hand) && state == old(state).(dropped := old(state).dropped + spans)
    {
      hide Coherent, CuckooSentCache.Valid, CuckooSentCache.View;
      HandOwns(hand);
      state := state.(dropped := state.dropped + spans);
      Remembered(hand);
    }

    method MarkSent(t: Trace, ghost hand: set<Trace>)
      requires Coherent(hand) && t in hand && t !in sampleCache.Repr && t.FreshCounts() && !t.sent
      modifies t`sent
      ensures Coherent(hand) && t.sent && t.FreshCounts() && t.View() == old(t.View()).(sent := true)
    {
      hide CuckooSentCache.Valid, CuckooSentCache.View, CountsOf;
      t.sent := true;
    }

    method HandOver(t: Trace, shouldSend: bool, reason: C.SendReason, cfg: C.Config, ghost hand: set<Trace>)
      requires Coherent(hand) && t in hand && t in Repr && t !in sampleCache.Repr && t.FreshCounts() && t.sent
      modifies this`state, this`tracesToSend, t`memo
      ensures Coherent(hand) && t.FreshCounts() && t.View() == old(t.View())
      ensures state == old(state).(outgoing := old(state).outgoing + [C.Sendable(t.View(), shouldSend, reason)])
    {
      hide Coherent, CountsOf;
      if t.root.Some? && cfg.rootCounts.AllCounts? {
        Memoize(t, hand);
      }
      Enqueue(t, shouldSend, reason, hand);
    }

    method Enqueue(t: Trace, shouldSend: bool, reason: C.SendReason, ghost hand: set<Trace>)
      requires Coherent(hand) && t in Repr && t !in sampleCache.Repr && t.FreshCounts() && t.sent
      modifies this`state, this`tracesToSend
      ensures Coherent(hand)
      ensures state == old(state).(outgoing := old(state).outgoing + [C.Sendable(t.View(), shouldSend, reason)])
    {
      hide CuckooSentCache.Valid, CuckooSentCache.View, CountsOf, DefaultInMemCache.Valid;
      tracesToSend := tracesToSend + [SendableTrace(t, shouldSend, reason)];
      state := state.(outgoing := state.outgoing + [C.Sendable(t.View(), shouldSend, reason)]);
    }

    method Memoize(t: Trace, ghost hand: set<Trace>)
      requires Coherent(hand) && t in hand && t !in sampleCache.Repr && t.FreshCounts()
      modifies t`memo
      ensures Coherent(hand) && t.FreshCounts() && t.View() == old(t.View())
    {
      hide CuckooSentCache.Valid, CuckooSentCache.View, CountsOf;
      var _ := t.SpanCounts();
    }

    /** One trace of a tick or of an early ejection: decided, recorded and handed over, or left alone. */
    method Decide(t: Trace, v: C.Verdict, reason: C.SendReason, now: Time, cfg: C.Config, ghost hand: set<Trace>)
        returns (ok: bool)
      requires Coherent(hand) && t in hand && InHand(t)
      modifies this`state, this`Repr, this`tracesToSend, t`sampleRate, t`keep, t`sent, t`memo, sampleCache.Repr
      ensures Coherent(hand) && Grown(old(Repr), old(sampleCache.Repr)) && ok == !old(t.sent)
      ensures t.sent && t.FreshCounts() && t.dataSize == old(t.dataSize) && (!ok ==> t.View() == old(t.View()))
      ensures state == C.Decided(old(state), old(t.View()), v, reason, now, cfg)
    {
      hide Coherent, CuckooSentCache.Valid, CuckooSentCache.View;
      ok := MakeDecision(t, v, now, hand);
      if ok {
        Send(t, v.keep, reason, cfg, hand);
      }
    }

    /** Takes the traces past their deadline out of the cache. */
    method TakeExpired(now: Time, cfg: C.Config) returns (traces: seq<Trace>, ghost due: seq<string>)
      requires Valid()
      modifies this`state, cache
      ensures Valid() && state == C.Removed(old(state), Elements(due))
      ensures IsTake(old(state).queue, now, cfg.maxExpired, {}, due)
      ensures Matches(old(cache.traces), due, traces) && cache.traces == old(cache.traces) - Elements(due)
      ensures forall id, t :: id in cache.traces && t in traces ==> cache.traces[id] != t
    {
      hide CuckooSentCache.Valid, CuckooSentCache.View, CountsOf, IsTake;
      traces, due := cache.TakeExpiredTraces(now, cfg.maxExpired, {});
      state := C.Removed(state, Elements(due));
      Recached({});
    }

    /** What the traces taken from a coherent cache are. */
    lemma CachedTraces(ids: seq<string>, ts: seq<Trace>)
      requires Valid() && Matches(cache.traces, ids, ts) && forall i, j :: 0 <= i < j < |ids| ==> ids[i] != ids[j]
      ensures forall i :: 0 <= i < |ts| ==> ids[i] in state.live && ts[i].View() == state.live[ids[i]]
      ensures forall i :: 0 <= i < |ts| ==> InHand(ts[i])
      ensures forall i, j :: 0 <= i < j < |ts| ==> ts[i] != ts[j]
      ensures forall i, id :: 0 <= i < |ts| && id in cache.traces && cache.traces[id] == ts[i] ==> id == ids[i]
    {
      assert forall id :: id in cache.traces ==> cache.Agrees(id);
    }

    lemma TakenAreDistinct(queue: map<string, Time>, now: Time, max: int, due: seq<string>)
      requires IsTake(queue, now, max, {}, due)
      ensures forall i, j :: 0 <= i < j < |due| ==> due[i] != due[j]
    {
    }

    /** A run of decisions: traces[i..] are still as they were in ts. */
    ghost predicate Deciding(traces: seq<Trace>, ts: seq<C.Trace>, i: nat)
      requires |traces| == |ts|
      reads this, sampleCache, traces
    {
      forall j {:trigger traces[j]} :: i <= j < |traces| ==> InHand(traces[j]) && traces[j].View() == ts[j]
    }

    /** The sampler's first n verdicts. */
    static function Verdicts(sampler: nat -> C.Verdict, n: nat): (vs: seq<C.Verdict>)
      ensures |vs| == n
    {
      seq(n, i requires 0 <= i < n => sampler(i))
    }

    method DecideTick(traces: seq<Trace>, ghost ts: seq<C.Trace>, i: nat, sampler: nat -> C.Verdict, now: Time,
                      cfg: C.Config)
      requires |traces| == |ts| && i < |traces| && (forall j, k :: 0 <= j < k < |traces| ==> traces[j] != traces[k])
      requires Coherent(Members(traces)) && Deciding(traces, ts, i)
      modifies this`state, this`Repr, this`tracesToSend, traces[i], sampleCache.Repr
      ensures Coherent(Members(traces)) && Grown(old(Repr), old(sampleCache.Repr)) && Deciding(traces, ts, i + 1)
      ensures state == C.Decided(old(state), ts[i], sampler(i), C.ReasonAt(ts[i], cfg), now, cfg)
    {
      hide C.Decided, CuckooSentCache.Valid, CuckooSentCache.View;
      var t := traces[i];
      assert t.View() == ts[i];
      var reason := C.Expired;
      if t.root.Some? {
        reason := C.GotRoot;
      } else if Wrap32(cfg.spanLimit) > 0 && Wrap32(|t.spans|) > Wrap32(cfg.spanLimit) {
        reason := C.SpanLimit;
      }
      var _ := Decide(t, sampler(i), reason, now, cfg, Members(traces));
    }

    static ghost function Members(traces: seq<Trace>): set<Trace> {
      set i | 0 <= i < |traces| :: traces[i]
    }

    lemma DecidedAllStep(s: C.State, ts: seq<C.Trace>, i: nat, sampler: nat -> C.Verdict, now: Time, cfg: C.Config)
      requires i < |ts|
      ensures C.DecidedAll(s, ts[..i + 1], Verdicts(sampler, i + 1), false, now, cfg)
              == C.Decided(C.DecidedAll(s, ts[..i], Verdicts(sampler, i), false, now, cfg),
                           ts[i], sampler(i), C.ReasonAt(ts[i], cfg), now, cfg)
    {
      assert ts[..i + 1][..i] == ts[..i];
      assert Verdicts(sampler, i + 1)[..i] == Verdicts(sampler, i);
    }

    method DecideAll(traces: seq<Trace>, ghost ts: seq<C.Trace>, sampler: nat -> C.Verdict, now: Time, cfg: C.Config)
      requires |traces| == |ts| && (forall j, k :: 0 <= j < k < |traces| ==> traces[j] != traces[k])
      requires Coherent(Members(traces)) && Deciding(traces, ts, 0)
      modifies this`state, this`Repr, this`tracesToSend, traces, sampleCache.Repr
      ensures Coherent(Members(traces)) && Grown(old(Repr), old(sampleCache.Repr))
      ensures state == C.DecidedAll(old(state), ts, Verdicts(sampler, |ts|), false, now, cfg)
    {
      hide Coherent, Deciding, C.DecidedAll, C.Decided, Verdicts;
      assert ts[..0] == [] && ts[..|ts|] == ts;
      DecidedNone(state, now, cfg, sampler);
      for i := 0 to |traces|
        invariant Coherent(Members(traces)) && Deciding(traces, ts, i)
        invariant Grown(old(Repr), old(sampleCache.Repr))
        invariant state == C.DecidedAll(old(state), ts[..i], Verdicts(sampler, i), false, now, cfg)
      {
        DecidedAllStep(old(state), ts, i, sampler, now, cfg);
        DecideTick(traces, ts, i, sampler, now, cfg);
      }
    }

    lemma DecidedNone(s: C.State, now: Time, cfg: C.Config, sampler: nat -> C.Verdict)
      ensures |Verdicts(sampler, 0)| == 0
      ensures C.DecidedAll(s, [], Verdicts(sampler, 0), false, now, cfg) == s
    {
    }

    /** One tick. The due ids that the step took, in order, come back as a ghost. */
    method SendExpiredTracesInCache(now: Time, cfg: C.Config, sampler: nat -> C.Verdict)
        returns (ghost due: seq<string>)
      requires Valid()
      modifies Repr
      ensures Valid() && fresh(Repr - old(Repr))
      ensures C.Next(old(state), C.Tick(now, cfg, due, Verdicts(sampler, |due|)), state)
    {
      hide CuckooSentCache.Valid, CuckooSentCache.View, C.DecidedAll, CountsOf, Verdicts, IsTake;
      ghost var s := state;
      var traces;
      traces, due := TakeExpired(now, cfg);
      TakenAreDistinct(s.queue, now, cfg.maxExpired, due);
      TakenAreGone(traces);
      DecideAll(traces, C.Traces(s.live, due), sampler, now, cfg);
      NoneInHand(Members(traces));
    }

    lemma TakenAreGone(traces: seq<Trace>)
      requires forall id, t :: id in cache.traces && t in traces ==> cache.traces[id] != t
      ensures forall id :: id in cache.traces ==> cache.traces[id] !in Members(traces)
    {
      forall id, i | id in cache.traces && 0 <= i < |traces| ensures cache.traces[id] != traces[i] {
        assert traces[i] in traces;
      }
    }

    lemma NoneInHand(hand: set<Trace>)
      requires Coherent(hand) && forall id :: id in cache.traces ==> cache.traces[id] !in hand
      ensures Valid()
    {
    }

    /** An early ejection before traces[i]: a trace that was looked at is as it was only if it had been sent
        before; the rest are as in ts. */
    ghost predicate Ejecting(traces: seq<Trace>, ts: seq<C.Trace>, i: nat)
      requires |traces| == |ts|
      reads this, sampleCache, traces
    {
      forall j {:trigger traces[j]} :: 0 <= j < |traces| && !(j < i && !ts[j].sent) ==>
        InHand(traces[j]) && traces[j].View() == ts[j]
    }

    method DecideEarly(traces: seq<Trace>, ghost ts: seq<C.Trace>, i: nat, v: C.Verdict, now: Time, cfg: C.Config)
        returns (ok: bool)
      requires |traces| == |ts| && i < |traces| && (forall j, k :: 0 <= j < k < |traces| ==> traces[j] != traces[k])
      requires Coherent(Members(traces)) && Ejecting(traces, ts, i)
      modifies this`state, this`Repr, this`tracesToSend, traces[i], sampleCache.Repr
      ensures Coherent(Members(traces)) && Grown(old(Repr), old(sampleCache.Repr)) && Ejecting(traces, ts, i + 1)
      ensures ok == !ts[i].sent && traces[i].dataSize == ts[i].dataSize
      ensures state == C.Decided(old(state), ts[i], v, C.EjectedMemsize, now, cfg)
    {
      hide C.Decided, CuckooSentCache.Valid, CuckooSentCache.View;
      var t := traces[i];
      assert t.View() == ts[i];
      ok := Decide(t, v, C.EjectedMemsize, now, cfg, Members(traces));
    }

    /** The ids let go of are those of the unsent traces among the first i. */
    static ghost predicate GoneBy(ts: seq<C.Trace>, i: nat, ids: set<string>) {
      forall id :: id in ids <==> exists j :: 0 <= j < i && j < |ts| && !ts[j].sent && ts[j].id == id
    }

    /** The victims so far, and how many bytes are still to go. */
    static ghost predicate Chosen(ts: seq<C.Trace>, i: nat, bytes: int, done: seq<C.Trace>, total: int,
                                  ids: set<string>)
      requires i <= |ts|
    {
      && C.Victims(ts, bytes) == done + C.Victims(ts[i..], bytes - total)
      && ids == Elements(C.TraceIds(done)) && GoneBy(ts, i, ids)
    }

    static lemma ChosenNone(ts: seq<C.Trace>, bytes: int)
      ensures Chosen(ts, 0, bytes, [], 0, {})
    {
      assert ts[0..] == ts;
    }

    static lemma ChosenAll(ts: seq<C.Trace>, bytes: int, done: seq<C.Trace>, total: int, ids: set<string>)
      requires Chosen(ts, |ts|, bytes, done, total, ids)
      ensures C.Victims(ts, bytes) == done && ids == Elements(C.TraceIds(done)) && GoneBy(ts, |ts|, ids)
    {
      assert ts[|ts|..] == [];
    }

    /** A trace that was sent is passed over; another joins the victims, the last one beyond the budget. */
    static lemma ChosenOne(ts: seq<C.Trace>, i: nat, bytes: int, done: seq<C.Trace>, total: int, ids: set<string>)
      requires i < |ts| && Chosen(ts, i, bytes, done, total, ids)
      ensures ts[i].sent ==> Chosen(ts, i + 1, bytes, done, total, ids)
      ensures !ts[i].sent && total + ts[i].dataSize <= bytes ==>
                Chosen(ts, i + 1, bytes, done + [ts[i]], total + ts[i].dataSize, ids + {ts[i].id})
      ensures !ts[i].sent && total + ts[i].dataSize > bytes ==> C.Victims(ts, bytes) == done + [ts[i]]
      ensures ids + {ts[i].id} == Elements(C.TraceIds(done + [ts[i]]))
      ensures !ts[i].sent ==> GoneBy(ts, i + 1, ids + {ts[i].id})
    {
      assert ts[i..][0] == ts[i] && ts[i..][1..] == ts[i + 1..];
      assert C.TraceIds(done + [ts[i]]) == C.TraceIds(done) + [ts[i].id];
    }

    static lemma DecidedNothing(s: C.State, now: Time, cfg: C.Config)
      ensures C.DecidedAll(s, [], [], true, now, cfg) == s
    {
    }

    static lemma DecidedOneMore(s: C.State, ts: seq<C.Trace>, vs: seq<C.Verdict>, t: C.Trace, v: C.Verdict,
                                now: Time, cfg: C.Config)
      requires |ts| == |vs|
      ensures C.DecidedAll(s, ts + [t], vs + [v], true, now, cfg)
              == C.Decided(C.DecidedAll(s, ts, vs, true, now, cfg), t, v, C.EjectedMemsize, now, cfg)
    {
      assert (ts + [t])[..|ts|] == ts && (vs + [v])[..|ts|] == vs;
    }

    /** Decides traces in the given order, until more than `bytes` have been let go. */
    method Eject(traces: seq<Trace>, ghost ts: seq<C.Trace>, bytes: int, sampler: nat -> C.Verdict, now: Time,
                 cfg: C.Config)
        returns (tracesSent: set<string>, ghost verdicts: seq<C.Verdict>, seen: nat)
      requires |traces| == |ts| && (forall j, k :: 0 <= j < k < |traces| ==> traces[j] != traces[k])
      requires Coherent(Members(traces)) && Ejecting(traces, ts, 0)
      requires forall i :: 0 <= i < |traces| ==> traces[i].id == ts[i].id
      modifies this`state, this`Repr, this`tracesToSend, traces, sampleCache.Repr
      ensures Coherent(Members(traces)) && Grown(old(Repr), old(sampleCache.Repr)) && Ejecting(traces, ts, seen)
      ensures |verdicts| == |C.Victims(ts, bytes)| && tracesSent == Elements(C.TraceIds(C.Victims(ts, bytes)))
      ensures GoneBy(ts, seen, tracesSent)
      ensures state == C.DecidedAll(old(state), C.Victims(ts, bytes), verdicts, true, now, cfg)
    {
      hide Coherent, Ejecting, C.DecidedAll, C.Decided, C.Victims, Chosen, GoneBy, Elements, C.TraceIds;
      ghost var done: seq<C.Trace> := [];
      var total := 0;
      tracesSent, verdicts, seen := {}, [], 0;
      ChosenNone(ts, bytes);
      DecidedNothing(state, now, cfg);
      while seen < |traces|
        invariant seen <= |traces|
        invariant Coherent(Members(traces)) && Ejecting(traces, ts, seen)
        invariant Grown(old(Repr), old(sampleCache.Repr))
        invariant Chosen(ts, seen, bytes, done, total, tracesSent) && |verdicts| == |done|
        invariant state == C.DecidedAll(old(state), done, verdicts, true, now, cfg)
      {
        var i := seen;
        ChosenOne(ts, i, bytes, done, total, tracesSent);
        DecidedOneMore(old(state), done, verdicts, ts[i], sampler(i), now, cfg);
        var ok := DecideEarly(traces, ts, i, sampler(i), now, cfg);
        seen := i + 1;
        if !ok {
          DecidedSent(C.DecidedAll(old(state), done, verdicts, true, now, cfg), ts[i], sampler(i), now, cfg);
          continue;
        }
        done, verdicts := done + [ts[i]], verdicts + [sampler(i)];
        tracesSent := tracesSent + {traces[i].id};
        total := total + traces[i].dataSize;
        if total > bytes {
          return;
        }
      }
      ChosenAll(ts, bytes, done, total, tracesSent);
    }

    static lemma DecidedSent(s: C.State, t: C.Trace, v: C.Verdict, now: Time, cfg: C.Config)
      requires t.sent
      ensures C.Decided(s, t, v, C.EjectedMemsize, now, cfg) == s
    {
    }

    /** Lets go of live traces when the cache is too large. Sorting by impact on the cache is not modelled: the
        order that the step went through comes back as a ghost. */
    method SendTracesEarly(bytes: int, now: Time, cfg: C.Config, sampler: nat -> C.Verdict)
        returns (ghost order: seq<string>, ghost verdicts: seq<C.Verdict>)
      requires Valid()
      modifies Repr
      ensures Valid() && fresh(Repr - old(Repr))
      ensures C.Next(old(state), C.Early(now, cfg, order, bytes, verdicts), state)
    {
      hide Coherent, C.DecidedAll, C.Victims, Ejecting, Deciding, Elements, C.TraceIds, GoneBy;
      Owns();
      var allTraces;
      ghost var ts;
      allTraces, order, ts := All();
      var tracesSent;
      var seen;
      tracesSent, verdicts, seen := Eject(allTraces, ts, bytes, sampler, now, cfg);
      CollectorSafety.DecidingKeepsLive(old(state), C.Victims(ts, bytes), verdicts, true, now, cfg);
      LetGo(allTraces, ts, order, seen, tracesSent);
    }

    /** The live traces, in some order. */
    method All() returns (traces: seq<Trace>, ghost order: seq<string>, ghost ts: seq<C.Trace>)
      requires Valid()
      ensures |traces| == |ts| == |order| && Coherent(Members(traces)) && Ejecting(traces, ts, 0)
      ensures forall j, k :: 0 <= j < k < |traces| ==> traces[j] != traces[k]
      ensures forall i :: 0 <= i < |order| ==> order[i] in state.live
      ensures IsOrder(order, state.live.Keys)
      ensures Listed(traces, order, ts) && ts == C.Traces(state.live, order)
      ensures forall i :: 0 <= i < |traces| ==> traces[i].id == ts[i].id && traces[i] in Repr
    {
      hide Coherent, CountsOf;
      Owns();
      traces, order := cache.GetAll();
      CachedTraces(order, traces);
      InAnyHand(Members(traces));
      ts := C.Traces(state.live, order);
    }

    lemma InAnyHand(hand: set<Trace>)
      requires Valid()
      ensures Coherent(hand) && state.live.Keys == cache.traces.Keys
    {
    }

    ghost predicate Listed(traces: seq<Trace>, order: seq<string>, ts: seq<C.Trace>)
      reads cache
    {
      && |traces| == |ts| == |order| && IsOrder(order, cache.traces.Keys)
      && forall i :: 0 <= i < |order| ==>
           order[i] in cache.traces && cache.traces[order[i]] == traces[i] && ts[i].id == order[i]
    }

    method LetGo(ghost traces: seq<Trace>, ghost ts: seq<C.Trace>, ghost order: seq<string>, ghost seen: nat,
                 tracesSent: set<string>)
      requires Listed(traces, order, ts) && Coherent(Members(traces)) && Ejecting(traces, ts, seen)
      requires (forall i :: 0 <= i < |order| ==> order[i] in state.live) && ts == C.Traces(state.live, order)
      requires GoneBy(ts, seen, tracesSent)
      modifies cache, this`state
      ensures Valid() && Repr == old(Repr) && state == C.Removed(old(state), tracesSent)
    {
      hide CuckooSentCache.Valid, CuckooSentCache.View, CountsOf, DefaultInMemCache.Valid;
      hide Listed, Ejecting, GoneBy, C.Traces;
      Remaining(traces, ts, order, seen, tracesSent);
      cache.RemoveTraces(tracesSent);
      state := C.Removed(state, tracesSent);
      Recached(Members(traces));
    }

    lemma NowMirrored()
      requires cache.Valid() && sampleCache.Valid() && Owned() && LiveMirrored({}) && OutMirrored()
      requires state.memory == sampleCache.View() && state.emitted == transmission
      ensures Valid()
    {
    }

    /** What an ejection leaves in the cache is as it was. */
    lemma Remaining(traces: seq<Trace>, ts: seq<C.Trace>, order: seq<string>, seen: nat, tracesSent: set<string>)
      requires Owned() && Listed(traces, order, ts) && Ejecting(traces, ts, seen) && GoneBy(ts, seen, tracesSent)
      requires (forall i :: 0 <= i < |order| ==> order[i] in state.live) && ts == C.Traces(state.live, order)
      ensures forall id :: id in cache.traces && id !in tracesSent ==>
                id in state.live && state.live[id] == cache.traces[id].View() && Countable(cache.traces[id])
    {
      hide CountsOf;
      forall id | id in cache.traces && id !in tracesSent
        ensures id in state.live && state.live[id] == cache.traces[id].View() && Countable(cache.traces[id])
      {
        assert id in order;
        var i :| 0 <= i < |order| && order[i] == id;
        assert traces[i] == cache.traces[id];
      }
    }

    /** The sender: takes the oldest trace handed over and transmits its spans in order. */
    method SendTraces(now: Time, cfg: C.Config)
      requires Valid() && tracesToSend != []
      modifies Repr
      ensures Valid() && Repr == old(Repr) && C.Next(old(state), C.Send(now, cfg), state)
    {
      hide Coherent, CountsOf, C.EmissionsOf;
      Owns();
      var spans := TransmitOldest(cfg);
      FinishOldest(spans, cfg);
    }

    method FinishOldest(spans: seq<C.Emission>, cfg: C.Config)
      requires Valid() && tracesToSend != [] && state.outgoing != []
      requires spans == C.EmissionsOf(state.outgoing[0].trace, cfg)
      modifies this`tracesToSend, this`transmission, this`state
      ensures Valid() && state == C.Transmitted(old(state), cfg)
    {
      hide CuckooSentCache.Valid, CuckooSentCache.View, CountsOf, C.EmissionsOf, DefaultInMemCache.Valid;
      tracesToSend := tracesToSend[1..];
      transmission := transmission + spans;
      state := C.Transmitted(state, cfg);
    }

    method TransmitOldest(cfg: C.Config) returns (spans: seq<C.Emission>)
      requires Valid() && tracesToSend != []
      modifies tracesToSend[0].trace`memo
      ensures Valid() && state.outgoing != [] && spans == C.EmissionsOf(state.outgoing[0].trace, cfg)
    {
      hide CuckooSentCache.Valid, CuckooSentCache.View, CountsOf, C.EmissionsOf;
      spans := Transmit(tracesToSend[0].trace, cfg);
      NowMirrored();
    }

    static method Transmit(t: Trace, cfg: C.Config) returns (spans: seq<C.Emission>)
      requires t.FreshCounts()
      modifies t`memo
      ensures t.FreshCounts() && t.View() == old(t.View()) && spans == C.EmissionsOf(t.View(), cfg)
    {
      spans := [];
      ghost var all := C.EmissionsOf(t.View(), cfg);
      for i := 0 to |t.spans|
        invariant t.FreshCounts() && t.View() == old(t.View()) && spans == all[..i]
      {
        var sp := t.spans[i];
        var marks := C.NoMarks;
        if sp.isRoot {
          if cfg.rootCounts.AllCounts? {
            var parts := t.SpanCounts();
            marks := C.AllMarks(Wrap32(|t.spans|), parts);
          } else if cfg.rootCounts.SpanCountOnly? {
            marks := C.TotalMark(Wrap32(|t.spans|));
          }
        }
        spans := spans + [C.Emission(sp, false, C.MergedRate(sp.sampleRate, t.sampleRate, cfg.dryRun), marks)];
      }
    }

    /** New sizes for the cache of decisions. */
    method Reload(keptSize: int, droppedSize: nat, now: Time, cfg: C.Config)
      requires Valid()
      modifies this`state, this`Repr, sampleCache.Repr
      ensures Valid() && fresh(Repr - old(Repr)) && C.Next(old(state), C.Reload(now, cfg, keptSize), state)
    {
      hide Coherent, CuckooSentCache.Valid, Book.Resized;
      Owns();
      var _ := sampleCache.Resize(keptSize, droppedSize);
      Repr := Repr + sampleCache.Repr;
      state := state.(memory := sampleCache.View());
      Remembered({});
    }

    /** The sections of the two goroutines that tend the memory of drops. */
    method Drain(budget: nat, now: Time, cfg: C.Config)
      requires Valid()
      modifies this`state, this`Repr, sampleCache.Repr
      ensures Valid() && fresh(Repr - old(Repr))
      ensures var n := Within(budget, old(state).memory.drop);
        C.Next(old(state), C.Tend(now, cfg, DropMemory.Drain(n)), state)
    {
      hide Coherent, CuckooSentCache.Valid, DropMemory.Memory.Drained;
      Owns();
      sampleCache.Drain(budget);
      Repr := Repr + sampleCache.Repr;
      state := state.(memory := sampleCache.View());
      Remembered({});
    }

    method StartFuture(load: real, now: Time, cfg: C.Config)
      requires Valid()
      modifies this`state, this`Repr, sampleCache.Repr
      ensures Valid() && fresh(Repr - old(Repr))
      ensures C.Next(old(state), C.Tend(now, cfg, DropMemory.Start(load)), state)
    {
      hide Coherent, CuckooSentCache.Valid, DropMemory.Memory.Started;
      Owns();
      sampleCache.StartFuture(load);
      Repr := Repr + sampleCache.Repr;
      state := state.(memory := sampleCache.View());
      Remembered({});
    }

    method Rotate(load: real, now: Time, cfg: C.Config)
      requires Valid() && (load > 0.99 ==> state.memory.drop.future.Some?)
      modifies this`state, this`Repr, sampleCache.Repr
      ensures Valid() && fresh(Repr - old(Repr))
      ensures C.Next(old(state), C.Tend(now, cfg, DropMemory.Rotate(load)), state)
    {
      hide Coherent, CuckooSentCache.Valid, DropMemory.Memory.Rotated;
      Owns();
      sampleCache.Rotate(load);
      Repr := Repr + sampleCache.Repr;
      state := state.(memory := sampleCache.View());
      Remembered({});
    }

    method CleanUp(now: Time, cfg: C.Config)
      requires Valid()
      modifies this`state, sampleCache.Repr
      ensures Valid() && C.Next(old(state), C.CleanUp(now, cfg), state)
    {
      hide Coherent, CuckooSentCache.Valid, Book.CleanedUp;
      Owns();
      sampleCache.CleanUp(now);
      state := state.(memory := sampleCache.View());
      Remembered({});
    }
  }
}
