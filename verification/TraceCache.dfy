/** types/event.go: the trace object, whose fields the collector updates in place. */
module Traces {
  import opened Options
  import opened Spans
  import C = Collector

  class Trace {
    const id: string
    const arrival: Time
    var sendBy: Time
    var root: Option<Span>
    var spans: seq<Span>
    var dataSize: nat
    var sampleRate: nat
    var keep: bool
    var sent: bool
    /** The span counts, computed on first use; all zero means not computed. Adding a span does not
        reset them. */
    var memo: Counts

    ghost function View(): C.Trace
      reads this
    {
      C.Trace(id, arrival, sendBy, root, spans, dataSize, sampleRate, keep, sent)
    }

    ghost predicate FreshCounts()
      reads this
    {
      memo == ZERO || memo == CountsOf(spans)
    }

    constructor (sp: Span, now: Time, timeout: nat)
      ensures View() == C.Trace(sp.traceId, now, now + timeout, None, [], 0, sp.sampleRate, false, false)
      ensures memo == ZERO
    {
      id, arrival, sendBy, sampleRate := sp.traceId, now, now + timeout, sp.sampleRate;
      root, spans, dataSize, keep, sent, memo := None, [], 0, false, false, ZERO;
    }

    method AddSpan(sp: Span)
      modifies this
      ensures View() == old(View()).(spans := old(spans) + [sp], dataSize := old(dataSize) + sp.dataSize)
      ensures memo == old(memo)
    {
      dataSize := dataSize + sp.dataSize;
      spans := spans + [sp];
    }

    method CalculateSpanCounts()
      modifies this`memo
      ensures memo == CountsOf(spans)
    {
      var c := ZERO;
      for i := 0 to |spans|
        invariant c == CountsOf(spans[..i])
      {
        assert spans[..i + 1][..i] == spans[..i];
        c := c.Plus(spans[i].annotation);
      }
      assert spans[..|spans|] == spans;
      memo := c;
    }

    /** The counts are right as long as no span was added after they were first asked for. */
    method SpanCounts() returns (c: Counts)
      requires FreshCounts()
      modifies this`memo
      ensures c == memo == CountsOf(spans)
    {
      if memo == ZERO {
        CalculateSpanCounts();
      }
      c := memo;
    }
  }
}

/** collect/cache/cache.go: live traces by id, and by deadline in a keyed priority queue. The queue is a
    third-party structure, taken here as a map from keys to priorities whose Pop returns a minimum. */
module TraceCache {
  import opened Options
  import opened Spans
  import opened Deadlines
  import opened Traces

  lemma {:induction false} MinimumExists(q: map<string, Time>)
    requires q != map[]
    ensures exists k :: k in q && forall j :: j in q ==> q[k] <= q[j]
  {
    var x :| x in q;
    var rest := q - {x};
    assert forall j :: j in q && j != x ==> j in rest && rest[j] == q[j];
    if rest != map[] {
      MinimumExists(rest);
      var k :| k in rest && forall j :: j in rest ==> rest[k] <= rest[j];
      var least := if q[x] <= q[k] then x else k;
      assert forall j :: j in q ==> q[least] <= q[j];
    }
  }

  /** The traces are those of the ids. */
  ghost predicate Matches(all: map<string, Trace>, ids: seq<string>, ts: seq<Trace>) {
    |ids| == |ts| && forall i :: 0 <= i < |ids| ==> ids[i] in all && ts[i] == all[ids[i]]
  }

  lemma MatchesOneMore(all: map<string, Trace>, ids: seq<string>, ts: seq<Trace>, id: string)
    ensures Matches(all, [], [])
    ensures Matches(all, ids, ts) ==> |ids| == |ts|
    ensures Matches(all, ids, ts) && id in all ==> Matches(all, ids + [id], ts + [all[id]])
  {
  }

  /** What has been popped so far: due ids in order, none later than what is left in the queue. */
  ghost predicate Popped(was: map<string, Time>, queue: map<string, Time>, now: Time, max: int,
                         rejected: set<string>, taken: seq<string>, skipped: seq<string>)
  {
    && (forall i, j :: 0 <= i < j < |taken| ==> taken[i] != taken[j])
    && (forall i, j :: 0 <= i < j < |skipped| ==> skipped[i] != skipped[j])
    && (forall id :: id in taken ==> id in was && was[id] <= now && id !in rejected)
    && (forall id :: id in skipped ==> id in was && id in rejected)
    && (forall i, j :: 0 <= i < j < |taken| ==> was[taken[i]] <= was[taken[j]])
    && (max > 0 ==> |taken| <= max)
    && queue == was - Elements(taken) - Elements(skipped)
    && (forall t, u :: t in taken && u in queue ==> was[t] <= queue[u])
  }

  lemma PoppedNothing(was: map<string, Time>, now: Time, max: int, rejected: set<string>)
    ensures Popped(was, was, now, max, rejected, [], [])
  {
  }

  /** What popping a minimum leads to: the id is due and taken or skipped, or nothing in the queue is due. */
  lemma PoppedOne(was: map<string, Time>, queue: map<string, Time>, now: Time, max: int, rejected: set<string>,
                  taken: seq<string>, skipped: seq<string>, id: string)
    requires Popped(was, queue, now, max, rejected, taken, skipped) && (max <= 0 || |taken| < max)
    requires id in queue && forall j :: j in queue ==> queue[id] <= queue[j]
    ensures id in was && was[id] == queue[id] && id !in taken && id !in skipped
    ensures queue[id] <= now && id in rejected ==> Popped(was, queue - {id}, now, max, rejected, taken, skipped + [id])
    ensures queue[id] <= now && id !in rejected ==> Popped(was, queue - {id}, now, max, rejected, taken + [id], skipped)
    ensures now < queue[id] ==> forall j :: j in queue ==> now < queue[j]
  {
    assert Elements(skipped + [id]) == Elements(skipped) + {id} && Elements(taken + [id]) == Elements(taken) + {id};
  }

  lemma PoppedAll(was: map<string, Time>, queue: map<string, Time>, now: Time, max: int, rejected: set<string>,
                  taken: seq<string>, skipped: seq<string>)
    requires Popped(was, queue, now, max, rejected, taken, skipped)
    requires queue == map[] || (max > 0 && |taken| >= max) || (forall j :: j in queue ==> now < queue[j])
    ensures IsTake(was, now, max, rejected, taken)
    ensures queue == was - Elements(taken) - Elements(skipped) && Elements(taken) !! Elements(skipped)
    ensures forall id :: id in skipped ==> id in was
    ensures forall i, j :: 0 <= i < j < |skipped| ==> skipped[i] != skipped[j]
  {
    forall id | id in was && was[id] <= now && id !in rejected && id !in taken
      ensures max > 0 && |taken| == max && forall t :: t in taken ==> was[t] <= was[id]
    {
      assert id in queue && queue[id] == was[id];
    }
  }

  class DefaultInMemCache {
    var pq: map<string, Time>
    var traces: map<string, Trace>

    /** Both indexes hold this id with this trace and its deadline. */
    ghost predicate Agrees(id: string)
      reads this, traces.Values
    {
      id in traces && id in pq && traces[id].id == id && pq[id] == traces[id].sendBy
    }

    ghost predicate Valid()
      reads this, traces.Values
    {
      pq.Keys == traces.Keys && forall id :: id in traces ==> Agrees(id)
    }

    constructor ()
      ensures Valid() && traces == map[] && pq == map[]
    {
      pq, traces := map[], map[];
    }

    /** Also how a changed deadline reaches the queue: the trace itself may disagree before. */
    method Set(t: Trace)
      requires pq.Keys == traces.Keys && forall id :: id in traces && id != t.id ==> Agrees(id)
      modifies this
      ensures Valid()
      ensures traces == old(traces)[t.id := t] && pq == old(pq)[t.id := t.sendBy]
    {
      traces := traces[t.id := t];
      pq := pq[t.id := t.sendBy];
    }

    method Get(id: string) returns (t: Trace?)
      ensures t == if id in traces then traces[id] else null
    {
      t := if id in traces then traces[id] else null;
    }

    /** In no particular order. */
    method GetAll() returns (all: seq<Trace>, ghost ids: seq<string>)
      ensures |all| == |ids| && (forall i :: 0 <= i < |ids| ==> ids[i] in traces && all[i] == traces[ids[i]])
      ensures IsOrder(ids, traces.Keys)
    {
      all, ids := [], [];
      var rest := traces.Keys;
      while rest != {}
        invariant rest <= traces.Keys && IsOrder(ids, traces.Keys - rest)
        invariant |all| == |ids| && (forall i :: 0 <= i < |ids| ==> ids[i] in traces && all[i] == traces[ids[i]])
        decreases rest
      {
        var id :| id in rest;
        all, ids := all + [traces[id]], ids + [id];
        rest := rest - {id};
      }
    }

    method Pop() returns (id: string, sendBy: Time)
      requires pq != map[]
      modifies this`pq
      ensures id in old(pq) && sendBy == old(pq)[id] && pq == old(pq) - {id}
      ensures forall j :: j in old(pq) ==> sendBy <= old(pq)[j]
    {
      MinimumExists(pq);
      id :| id in pq && forall j :: j in pq ==> pq[id] <= pq[j];
      sendBy := pq[id];
      pq := pq - {id};
    }

    /** Removes and returns traces past their deadline. The ids that a filter would reject are given as a
        set; the worker passes none. */
    method TakeExpiredTraces(now: Time, max: int, rejected: set<string>)
        returns (expired: seq<Trace>, ghost taken: seq<string>)
      requires Valid()
      modifies this
      ensures Valid() && IsTake(old(pq), now, max, rejected, taken)
      ensures Matches(old(traces), taken, expired)
      ensures pq == old(pq) - Elements(taken) && traces == old(traces) - Elements(taken)
    {
      hide Popped, IsTake, Matches;
      ghost var was, all := pq, traces;
      var skipped: seq<Trace> := [];
      ghost var left: seq<string> := [];
      expired, taken := [], [];
      PoppedNothing(was, now, max, rejected);
      MatchesOneMore(all, [], [], "");
      while pq != map[] && (max <= 0 || |expired| < max)
        invariant Popped(was, pq, now, max, rejected, taken, left)
        invariant Matches(all, taken, expired) && Matches(all, left, skipped) && |taken| == |expired|
        invariant traces == all - Elements(taken)
        decreases pq.Keys
      {
        ghost var before := pq;
        var id, sendBy := Pop();
        PoppedOne(was, before, now, max, rejected, taken, left, id);
        MatchesOneMore(all, taken, expired, id);
        MatchesOneMore(all, left, skipped, id);
        if id !in traces {
          continue;
        }
        var t := traces[id];
        if now < sendBy {
          pq := pq[id := sendBy];
          assert pq == before;
          break;
        }
        if id in rejected {
          skipped, left := skipped + [t], left + [id];
          continue;
        }
        expired, taken := expired + [t], taken + [id];
        traces := traces - {id};
      }
      PoppedAll(was, pq, now, max, rejected, taken, left);
      Requeue(skipped, left, was, Elements(taken), all);
    }

    /** Puts skipped traces back with their own deadlines. */
    method Requeue(skipped: seq<Trace>, ghost left: seq<string>, ghost was: map<string, Time>, ghost gone: set<string>,
                   ghost all: map<string, Trace>)
      requires pq == was - gone - Elements(left) && gone !! Elements(left)
      requires Matches(all, left, skipped) && forall i, j :: 0 <= i < j < |left| ==> left[i] != left[j]
      requires forall id :: id in left ==> id in was && all[id].id == id && was[id] == all[id].sendBy
      modifies this`pq
      ensures pq == was - gone
    {
      assert left[0..] == left && Elements(left[|left|..]) == {};
      for i := 0 to |skipped|
        invariant pq == was - gone - Elements(left[i..])
      {
        var t := skipped[i];
        assert t == all[left[i]] && left[i] in left;
        assert left[i..] == [left[i]] + left[i + 1..];
        assert Elements(left[i..]) == {left[i]} + Elements(left[i + 1..]) && left[i] !in left[i + 1..];
        pq := pq[t.id := t.sendBy];
      }
    }

    method RemoveTraces(toDelete: set<string>)
      requires Valid()
      modifies this
      ensures Valid() && traces == old(traces) - toDelete && pq == old(pq) - toDelete
    {
      traces := traces - toDelete;
      pq := pq - toDelete;
    }
  }
}
