/** When a live trace is due: at the earliest of its timeout, the delay after a root span, and the arrival of a span
    beyond the limit. */
module CollectorDeadlines {
  import opened Options
  import opened Spans
  import opened Decisions
  import opened Deadlines
  import opened Collector
  import opened CollectorSafety
  import opened CollectorProgress

  const SECOND := 1_000_000_000

  function Earlier(a: Time, b: Time): Time {
    if a < b then a else b
  }

  /** The settings that a span is met with: a timeout of 0 counts as 60 seconds, and a delay of 0 as 2. */
  function TimeoutOf(cfg: Config): Time {
    if cfg.traceTimeout == 0 then 60 * SECOND else cfg.traceTimeout
  }

  function DelayOf(cfg: Config): Time {
    if cfg.sendDelay == 0 then 2 * SECOND else cfg.sendDelay
  }

  /** The n-th span of a trace is beyond the limit; the program counts in 32 bits. */
  predicate Beyond(n: nat, cfg: Config) {
    cfg.spanLimit > 0 && n % 0x1_0000_0000 > cfg.spanLimit
  }

  /** What a span makes of the trace that it joins or starts, and of nothing else. */
  lemma SpanSetsDeadline(s: State, e: Event, s': State)
    requires Safe(s) && e.Receive? && Next(s, e, s') && e.sp.traceId in s'.live
    ensures var id, old_ := e.sp.traceId, e.sp.traceId in s.live;
      var was := if old_ then s.live[id].sendBy else e.now + TimeoutOf(e.cfg);
      var spans := (if old_ then s.live[id].spans else []) + [e.sp];
      var t := s'.live[id];
      && t.spans == spans && t.arrival == (if old_ then s.live[id].arrival else e.now)
      && t.root == (if e.sp.isRoot then Some(e.sp) else if old_ then s.live[id].root else None)
      && t.dataSize == (if old_ then s.live[id].dataSize else 0) + e.sp.dataSize
      && t.sendBy == (if Beyond(|spans|, e.cfg) then Earlier(was, e.now)
                      else if e.sp.isRoot then Earlier(was, e.now + DelayOf(e.cfg))
                      else was)
      && s'.queue[id] == t.sendBy && (old_ ==> s'.memory == s.memory)
    ensures s'.live.Keys == s.live.Keys + {e.sp.traceId}
    ensures forall u :: u in s.live && u != e.sp.traceId ==> s'.live[u] == s.live[u]
  {
    hide Book.Asked, Conserved, DecidedOnce;
  }

  /** A span that came for a trace, when, and the settings that it met. */
  datatype Arrival = Arrival(now: Time, sp: Span, cfg: Config)

  /** The spans that came for a trace since it was started, by the events of a run and by when it was live. */
  ghost function Arrivals(run: seq<State>, events: seq<Event>, n: nat, id: string): seq<Arrival>
    requires IsRun(run, events) && n <= |events|
  {
    if n == 0 || id !in run[n].live then []
    else
      var e, rest := events[n - 1], Arrivals(run, events, n - 1, id);
      if e.Receive? && e.sp.traceId == id then rest + [Arrival(e.now, e.sp, e.cfg)] else rest
  }

  /** A reason for a trace with these arrivals to be due at d: its timeout, a root span, or a span beyond the limit. */
  ghost predicate Reason(arrivals: seq<Arrival>, d: Time) {
    || TimedOutAt(arrivals, d)
    || (exists i :: RootDueAt(arrivals, i, d))
    || (exists i :: BeyondAt(arrivals, i, d))
  }

  predicate TimedOutAt(arrivals: seq<Arrival>, d: Time) {
    arrivals != [] && d == arrivals[0].now + TimeoutOf(arrivals[0].cfg)
  }

  predicate RootDueAt(arrivals: seq<Arrival>, i: int, d: Time) {
    0 <= i < |arrivals| && arrivals[i].sp.isRoot && d == arrivals[i].now + DelayOf(arrivals[i].cfg)
  }

  predicate BeyondAt(arrivals: seq<Arrival>, i: int, d: Time) {
    0 <= i < |arrivals| && Beyond(i + 1, arrivals[i].cfg) && d == arrivals[i].now
  }

  function SpansOf(arrivals: seq<Arrival>): seq<Span> {
    seq(|arrivals|, i requires 0 <= i < |arrivals| => arrivals[i].sp)
  }

  function SizeOf(spans: seq<Span>): nat {
    if spans == [] then 0 else SizeOf(spans[..|spans| - 1]) + spans[|spans| - 1].dataSize
  }

  /** The root span of the trace is the last one that came. */
  ghost predicate IsRootOf(root: Option<Span>, spans: seq<Span>) {
    match root
    case None => forall i :: 0 <= i < |spans| ==> !spans[i].isRoot
    case Some(r) => exists i :: 0 <= i < |spans| && spans[i] == r && r.isRoot
                                && forall j :: i < j < |spans| ==> !spans[j].isRoot
  }

  /** The earliest of the reasons. */
  ghost predicate IsDue(d: Time, arrivals: seq<Arrival>) {
    Reason(arrivals, d) && forall other :: Reason(arrivals, other) ==> d <= other
  }

  /** The trace is made of its arrivals, and due at the earliest of their reasons. */
  ghost predicate MadeOf(t: Trace, arrivals: seq<Arrival>) {
    && arrivals != [] && t.arrival == arrivals[0].now && t.spans == SpansOf(arrivals)
    && t.dataSize == SizeOf(t.spans) && IsRootOf(t.root, t.spans) && IsDue(t.sendBy, arrivals)
  }

  lemma SpansSnoc(arrivals: seq<Arrival>, a: Arrival)
    ensures SpansOf(arrivals + [a]) == SpansOf(arrivals) + [a.sp]
    ensures SizeOf(SpansOf(arrivals) + [a.sp]) == SizeOf(SpansOf(arrivals)) + a.sp.dataSize
  {
    assert (SpansOf(arrivals) + [a.sp])[..|arrivals|] == SpansOf(arrivals);
  }

  lemma RootSnoc(root: Option<Span>, spans: seq<Span>, sp: Span)
    requires spans != [] ==> IsRootOf(root, spans)
    requires spans == [] ==> root == None
    ensures IsRootOf(if sp.isRoot then Some(sp) else root, spans + [sp])
  {
    var more := spans + [sp];
    if sp.isRoot {
      assert more[|spans|] == sp;
    } else if root.Some? {
      var i :| 0 <= i < |spans| && spans[i] == root.value && root.value.isRoot
               && forall j :: i < j < |spans| ==> !spans[j].isRoot;
      assert more[i] == root.value;
    }
  }

  /** One more arrival adds the reasons of its own. */
  lemma ReasonSnoc(arrivals: seq<Arrival>, a: Arrival, d: Time)
    requires arrivals != []
    ensures Reason(arrivals + [a], d)
            <==> || Reason(arrivals, d) || (a.sp.isRoot && d == a.now + DelayOf(a.cfg))
                 || (Beyond(|arrivals| + 1, a.cfg) && d == a.now)
  {
    var more, n := arrivals + [a], |arrivals|;
    hide Beyond, TimeoutOf, DelayOf;
    if i :| RootDueAt(arrivals, i, d) {
      assert RootDueAt(more, i, d);
    }
    if i :| BeyondAt(arrivals, i, d) {
      assert BeyondAt(more, i, d);
    }
    if i :| RootDueAt(more, i, d) {
      assert i < n ==> RootDueAt(arrivals, i, d);
    }
    if i :| BeyondAt(more, i, d) {
      assert i < n ==> BeyondAt(arrivals, i, d);
    }
    assert a.sp.isRoot && d == a.now + DelayOf(a.cfg) ==> RootDueAt(more, n, d);
    assert Beyond(n + 1, a.cfg) && d == a.now ==> BeyondAt(more, n, d);
  }

  lemma FirstReason(a: Arrival, d: Time)
    ensures Reason([a], d)
            <==> || d == a.now + TimeoutOf(a.cfg) || (a.sp.isRoot && d == a.now + DelayOf(a.cfg))
                 || (Beyond(1, a.cfg) && d == a.now)
  {
    assert a.sp.isRoot && d == a.now + DelayOf(a.cfg) ==> RootDueAt([a], 0, d);
    assert Beyond(1, a.cfg) && d == a.now ==> BeyondAt([a], 0, d);
  }

  lemma DueSnoc(was: Time, arrivals: seq<Arrival>, a: Arrival, d: Time)
    requires arrivals != [] && IsDue(was, arrivals)
    requires d == if Beyond(|arrivals| + 1, a.cfg) then Earlier(was, a.now)
                  else if a.sp.isRoot then Earlier(was, a.now + DelayOf(a.cfg)) else was
    ensures IsDue(d, arrivals + [a])
  {
    ReasonSnoc(arrivals, a, d);
    hide Reason;
    forall other | Reason(arrivals + [a], other) ensures d <= other {
      ReasonSnoc(arrivals, a, other);
    }
  }

  lemma DueFirst(a: Arrival, d: Time)
    requires var was := a.now + TimeoutOf(a.cfg);
      d == if Beyond(1, a.cfg) then Earlier(was, a.now)
           else if a.sp.isRoot then Earlier(was, a.now + DelayOf(a.cfg)) else was
    ensures IsDue(d, [a])
  {
    FirstReason(a, d);
    hide Reason;
    forall other | Reason([a], other) ensures d <= other {
      FirstReason(a, other);
    }
  }

  lemma MadeSnoc(t: Trace, arrivals: seq<Arrival>, a: Arrival, t': Trace)
    requires MadeOf(t, arrivals) && t'.spans == t.spans + [a.sp] && t'.arrival == t.arrival
    requires t'.root == (if a.sp.isRoot then Some(a.sp) else t.root) && t'.dataSize == t.dataSize + a.sp.dataSize
    requires t'.sendBy == if Beyond(|t.spans| + 1, a.cfg) then Earlier(t.sendBy, a.now)
                          else if a.sp.isRoot then Earlier(t.sendBy, a.now + DelayOf(a.cfg)) else t.sendBy
    ensures MadeOf(t', arrivals + [a])
  {
    SpansSnoc(arrivals, a);
    RootSnoc(t.root, t.spans, a.sp);
    DueSnoc(t.sendBy, arrivals, a, t'.sendBy);
    hide IsDue, IsRootOf, SizeOf;
  }

  lemma MadeFirst(a: Arrival, t: Trace)
    requires t.spans == [a.sp] && t.arrival == a.now && t.dataSize == a.sp.dataSize
    requires t.root == if a.sp.isRoot then Some(a.sp) else None
    requires var was := a.now + TimeoutOf(a.cfg);
      t.sendBy == if Beyond(1, a.cfg) then Earlier(was, a.now)
                  else if a.sp.isRoot then Earlier(was, a.now + DelayOf(a.cfg)) else was
    ensures MadeOf(t, [a])
  {
    SpansSnoc([], a);
    RootSnoc(None, [], a.sp);
    DueFirst(a, t.sendBy);
    assert [] + [a] == [a] && [] + [a.sp] == [a.sp];
  }

  /** A span keeps its trace made of its arrivals. */
  lemma SpanKeepsMade(s: State, e: Event, s': State, arrivals: seq<Arrival>)
    requires Safe(s) && e.Receive? && Next(s, e, s') && e.sp.traceId in s'.live
    requires if e.sp.traceId in s.live then MadeOf(s.live[e.sp.traceId], arrivals) else arrivals == []
    ensures MadeOf(s'.live[e.sp.traceId], arrivals + [Arrival(e.now, e.sp, e.cfg)])
  {
    hide *;
    var id, a := e.sp.traceId, Arrival(e.now, e.sp, e.cfg);
    SpanSetsDeadline(s, e, s');
    if id in s.live {
      MadeSnoc(s.live[id], arrivals, a, s'.live[id]);
    } else {
      assert [] + [e.sp] == [e.sp];
      MadeFirst(a, s'.live[id]);
      assert arrivals + [a] == [a];
    }
  }

  lemma RunHasStates(run: seq<State>, events: seq<Event>)
    requires IsRun(run, events)
    ensures |run| == |events| + 1
  {
  }

  lemma NextIs(run: seq<State>, events: seq<Event>, n: nat)
    requires IsRun(run, events) && n < |events|
    ensures Next(run[n], events[n], run[n + 1])
  {
  }

  /** Of the traces that a step leaves live, it changes only the one that its span is for. */
  lemma StepKeepsOthers(s: State, e: Event, s': State, id: string)
    requires Safe(s) && Next(s, e, s') && id in s'.live && !(e.Receive? && e.sp.traceId == id)
    ensures id in s.live && s'.live[id] == s.live[id]
  {
    if e.Tick? || e.Early? {
      BatchStep(s, e, s');
      var ts := Batch(s, e, s');
      hide *;
      DecidingKeepsLive(Removed(s, Elements(TraceIds(ts))), ts, VerdictsOf(e), e.Early?, e.now, e.cfg);
      RemovedOnly(s, Elements(TraceIds(ts)), id);
    } else if e.Receive? {
      ReceiveLeaves(s, e, s', id);
    }
  }

  lemma RemovedOnly(s: State, ids: set<string>, id: string)
    ensures id in Removed(s, ids).live ==> id in s.live && Removed(s, ids).live[id] == s.live[id]
  {
  }

  lemma ReceiveLeaves(s: State, e: Event, s': State, id: string)
    requires Next(s, e, s') && id in s'.live && e.Receive? && e.sp.traceId != id
    ensures id in s.live && s'.live[id] == s.live[id]
  {
    hide Book.Asked, Extended;
  }

  /** In every run from the initial state: each live trace consists of the spans that came for it since it was started,
      in order, and is due at the earliest of its timeout after the first, the delay after a root span, and the
      arrival of a span beyond the limit. */
  lemma {:induction false} RunDeadlines(run: seq<State>, events: seq<Event>, keptSize: int, n: nat, id: string)
    requires IsRun(run, events) && run[0] == Init(keptSize) && n <= |events| && id in run[n].live
    ensures MadeOf(run[n].live[id], Arrivals(run, events, n, id))
  {
    hide *;
    RunHasStates(run, events);
    if n == 0 {
      NothingIsLive(keptSize);
    } else {
      if id in run[n - 1].live {
        RunDeadlines(run, events, keptSize, n - 1, id);
      } else {
        NoArrivals(run, events, n - 1, id);
      }
      SafeAt(run, events, keptSize, n - 1);
      NextIs(run, events, n - 1);
      ArrivalsStep(run, events, n, id);
      MadeStep(run[n - 1], events[n - 1], run[n], id, Arrivals(run, events, n - 1, id));
    }
  }

  lemma MadeStep(s: State, e: Event, s': State, id: string, arrivals: seq<Arrival>)
    requires Safe(s) && Next(s, e, s') && id in s'.live
    requires if id in s.live then MadeOf(s.live[id], arrivals) else arrivals == []
    ensures MadeOf(s'.live[id], if e.Receive? && e.sp.traceId == id then arrivals + [Arrival(e.now, e.sp, e.cfg)]
                                else arrivals)
  {
    hide *;
    if e.Receive? && e.sp.traceId == id {
      SpanKeepsMade(s, e, s', arrivals);
    } else {
      StepKeepsOthers(s, e, s', id);
    }
  }

  lemma NothingIsLive(keptSize: int)
    ensures Init(keptSize).live == map[]
  {
  }

  lemma SafeAt(run: seq<State>, events: seq<Event>, keptSize: int, n: nat)
    requires IsRun(run, events) && run[0] == Init(keptSize) && n <= |events|
    ensures Safe(run[n])
  {
    hide Next, Safe;
    RunIsSafe(run, events, keptSize);
  }

  lemma ArrivalsStep(run: seq<State>, events: seq<Event>, n: nat, id: string)
    requires IsRun(run, events) && 0 < n <= |events| && id in run[n].live
    ensures var e, rest := events[n - 1], Arrivals(run, events, n - 1, id);
      Arrivals(run, events, n, id)
      == if e.Receive? && e.sp.traceId == id then rest + [Arrival(e.now, e.sp, e.cfg)] else rest
  {
    hide Next;
  }

  lemma NoArrivals(run: seq<State>, events: seq<Event>, n: nat, id: string)
    requires IsRun(run, events) && n <= |events| && id !in run[n].live
    ensures Arrivals(run, events, n, id) == []
  {
    hide Next;
  }

  /** No trace is decided before it is due: a tick takes only traces that have a reason that has come. */
  lemma TicksDecideDueTraces(run: seq<State>, events: seq<Event>, keptSize: int, n: nat, t: Trace)
    requires IsRun(run, events) && run[0] == Init(keptSize) && n < |events| && events[n].Tick?
    requires Next(run[n], events[n], run[n + 1]) && t in Batch(run[n], events[n], run[n + 1])
    ensures exists d :: d <= events[n].now && Reason(Arrivals(run, events, n, t.id), d)
  {
    SafeAt(run, events, keptSize, n);
    var s, e, s' := run[n], events[n], run[n + 1];
    assert IsTake(s.queue, e.now, e.cfg.maxExpired, {}, e.due);
    BatchStep(s, e, s');
    var i :| 0 <= i < |e.due| && Traces(s.live, e.due)[i] == t;
    assert e.due[i] in e.due && s.queue[t.id] == t.sendBy;
    RunDeadlines(run, events, keptSize, n, t.id);
  }

  /** And every trace is decided soon after: when a reason has strictly passed, with a batch limit of at least m, a
      trace that k others are due before, or with, is gone within k / m + 1 ticks. */
  lemma DueTracesLeave(before: seq<State>, past: seq<Event>, keptSize: int, run: seq<State>, events: seq<Event>,
                       id: string, d: Time, m: nat)
    requires IsRun(run, events) && |events| > 0 && id in run[0].live
    requires IsRun(before, past) && before[0] == Init(keptSize) && before[|past|] == run[0]
    requires Reason(Arrivals(before, past, |past|, id), d) && d < events[0].now
    requires m > 0 && forall i :: 0 <= i < |events| ==> Limited(events[i], m)
    requires Ticks(events) >= |Rivals(run[0], id, run[0].live[id].sendBy)| / m + 1
    ensures exists i :: 0 <= i < |run| && id !in run[i].live
  {
    SafeAt(before, past, keptSize, |past|);
    RunDeadlines(before, past, keptSize, |past|, id);
    hide Next, Safe, Limited, Ticks, Rivals, Reason;
    NoStarvation(run, events, id, m);
  }
}
