/** Taking the traces whose deadline has passed: the specification of DefaultInMemCache.TakeExpiredTraces. */
module Deadlines {
  import opened Options
  import opened Spans

  /** `taken` holds due ids that are not rejected, in deadline order, at most `max` of them when max is
      positive; an id that is left behind is either not due, rejected, or no earlier than a full take. */
  ghost predicate IsTake(queue: map<string, Time>, now: Time, max: int, rejected: set<string>, taken: seq<string>) {
    && (forall i, j :: 0 <= i < j < |taken| ==> taken[i] != taken[j])
    && (forall id :: id in taken ==> id in queue && queue[id] <= now && id !in rejected)
    && (forall i, j :: 0 <= i < j < |taken| && taken[i] in queue && taken[j] in queue ==>
          queue[taken[i]] <= queue[taken[j]])
    && (max > 0 ==> |taken| <= max)
    && (forall id :: id in queue && queue[id] <= now && id !in rejected && id !in taken ==>
          max > 0 && |taken| == max && forall t :: t in taken && t in queue ==> queue[t] <= queue[id])
  }

  /** A take removes the earliest: it has as many ids as are due, up to max. */
  lemma TakeSize(queue: map<string, Time>, now: Time, max: int, taken: seq<string>)
    requires IsTake(queue, now, max, {}, taken)
    ensures var due := set id | id in queue && queue[id] <= now;
      |taken| == if max > 0 && max < |due| then max else |due|
  {
    var due := set id | id in queue && queue[id] <= now;
    ElementsCount(taken);
    assert Elements(taken) <= due;
    if exists id :: id in due && id !in taken {
      var id :| id in due && id !in taken;
      Smaller(Elements(taken), due, id);
    } else {
      assert Elements(taken) == due;
    }
  }

  lemma Smaller<T>(a: set<T>, b: set<T>, x: T)
    requires a <= b && x in b && x !in a
    ensures |a| < |b|
  {
    Subset(a, b - {x});
  }
}

/** One collector worker as a state machine over values (collect/collector_worker.go, collect/collect.go):
    the specification of the class CollectorWorker, and the runs that the theorems are about. */
module Collector {
  import opened Options
  import opened Spans
  import opened Recency
  import DropMemory
  import opened Decisions
  import opened Deadlines

  const DEFAULT_TRACE_TIMEOUT := 60_000_000_000
  const DEFAULT_SEND_DELAY := 2_000_000_000

  /** What the root span is told about the size of its trace. */
  datatype RootCounts = NoCounts | SpanCountOnly | AllCounts

  datatype Config = Config(traceTimeout: nat, sendDelay: nat, spanLimit: nat, maxExpired: int, dryRun: bool,
                           rootCounts: RootCounts)
  {
    function TraceTimeout(): nat {
      if traceTimeout == 0 then DEFAULT_TRACE_TIMEOUT else traceTimeout
    }

    function SendDelay(): nat {
      if sendDelay == 0 then DEFAULT_SEND_DELAY else sendDelay
    }
  }

  datatype SendReason = GotRoot | SpanLimit | Expired | EjectedMemsize

  datatype Trace = Trace(id: string, arrival: Time, sendBy: Time, root: Option<Span>, spans: seq<Span>, dataSize: nat,
                         sampleRate: nat, keep: bool, sent: bool)
  {
    function DescendantCount(): u32 {
      Wrap32(|spans|)
    }

    function Record(): KeptRecord {
      NewRecord(sampleRate, |spans|, CountsOf(spans))
    }
  }

  function NewTrace(sp: Span, now: Time, cfg: Config): Trace {
    Trace(sp.traceId, now, now + cfg.TraceTimeout(), None, [], 0, sp.sampleRate, false, false)
  }

  datatype Verdict = Verdict(rate: nat, keep: bool)

  datatype Sendable = Sendable(trace: Trace, shouldSend: bool, reason: SendReason)

  /** The numbers written on a span: counts.None? when nothing was written, and then the total alone or
      the total with its parts. */
  datatype Marks = NoMarks | TotalMark(total: u32) | AllMarks(total: u32, parts: Counts)

  datatype Emission = Emission(span: Span, late: bool, sampleRate: nat, marks: Marks)

  /** The rate that a sent span carries: products are taken in 64-bit arithmetic; dry runs leave the
      span's own rate, with 0 read as 1. */
  function MergedRate(spanRate: nat, traceRate: nat, dryRun: bool): nat {
    var own := if spanRate < 1 then 1 else spanRate;
    if dryRun then own else (own * traceRate) % WIDTH64
  }

  function MarksFor(sp: Span, total: u32, parts: Counts, cfg: Config): Marks {
    if !sp.isRoot then NoMarks
    else match cfg.rootCounts
      case NoCounts => NoMarks
      case SpanCountOnly => TotalMark(total)
      case AllCounts => AllMarks(total, parts)
  }

  /** Late spans are weighed like the spans sent with their trace, by the product of the rates, for every rate a span
      may carry, exactly when the trace's rate survives its 32-bit record. */
  lemma LateWeightAgrees(traceRate: nat)
    requires traceRate < WIDTH64
    ensures forall own: nat ::
              MergedRate(own, traceRate, false) == ((if own == 0 then 1 else own) * traceRate) % WIDTH64
    ensures traceRate < WIDTH32 <==>
            forall own: nat :: MergedRate(own, Wrap32(traceRate), false) == MergedRate(own, traceRate, false)
  {
    if traceRate >= WIDTH32 {
      assert Wrap32(traceRate) < WIDTH32 <= traceRate;
      assert MergedRate(1, Wrap32(traceRate), false) == Wrap32(traceRate);
      assert MergedRate(1, traceRate, false) == traceRate;
    } else {
      assert Wrap32(traceRate) == traceRate;
    }
  }

  /** live and queue are the two indexes of the trace cache; outgoing is the channel to the sender;
      emitted and dropped say where spans went. taken, created and decided are histories: the spans
      received, the traces started and the traces decided, by id. */
  datatype State = State(live: map<string, Trace>, queue: map<string, Time>, memory: Book, outgoing: seq<Sendable>,
                         emitted: seq<Emission>, dropped: seq<Span>,
                         taken: seq<Span>, created: seq<string>, decided: seq<string>)

  function Init(keptSize: int): State {
    State(map[], map[], Book([], keptSize, DropMemory.Memory({}, None, []), map[]), [], [], [], [], [], [])
  }

  /** A span whose trace has been decided: sent if the trace was kept or in a dry run, else dropped. */
  function Obeyed(s: State, answer: Answer, sp: Span, cfg: Config): State
    requires !answer.Unknown?
  {
    match answer
    case Kept(record) =>
      s.(emitted := s.emitted + [Emission(sp, true, MergedRate(sp.sampleRate, record.rate, cfg.dryRun),
                                          MarksFor(sp, record.total, record.counts, cfg))])
    case Dropped =>
      if cfg.dryRun then s.(emitted := s.emitted + [Emission(sp, true, sp.sampleRate, NoMarks)])
      else s.(dropped := s.dropped + [sp])
  }

  /** A trace after taking a span: the root span and a span beyond the limit bring the deadline forward. */
  function Extended(t: Trace, sp: Span, now: Time, cfg: Config): Trace {
    var t1 := t.(spans := t.spans + [sp], dataSize := t.dataSize + sp.dataSize,
                 root := if sp.isRoot then Some(sp) else t.root);
    var over := cfg.spanLimit > 0 && t1.DescendantCount() > cfg.spanLimit;
    var sendBy := now + if over then 0 else cfg.SendDelay();
    if (sp.isRoot || over) && t1.sendBy > sendBy then t1.(sendBy := sendBy) else t1
  }

  function Absorbed(s: State, sp: Span, now: Time, cfg: Config): State
    requires sp.traceId in s.live
  {
    var t := Extended(s.live[sp.traceId], sp, now, cfg);
    s.(live := s.live[sp.traceId := t],
       queue := if t.sendBy != s.live[sp.traceId].sendBy then s.queue[sp.traceId := t.sendBy] else s.queue)
  }

  function Started(s: State, sp: Span, now: Time, cfg: Config): State {
    var t := NewTrace(sp, now, cfg);
    s.(live := s.live[t.id := t], queue := s.queue[t.id := t.sendBy], created := s.created + [t.id])
  }

  ghost function Processed(s: State, sp: Span, now: Time, cfg: Config, collides: bool): State {
    var s0 := s.(taken := s.taken + [sp]);
    if sp.traceId !in s.live then
      var (answer, memory) := s.memory.Asked(sp.traceId, sp.annotation, now, collides);
      var s1 := s0.(memory := memory);
      if answer.Unknown? then Absorbed(Started(s1, sp, now, cfg), sp, now, cfg) else Obeyed(s1, answer, sp, cfg)
    else if s.live[sp.traceId].sent then
      var (answer, memory) := s.memory.Asked(sp.traceId, sp.annotation, now, collides);
      Obeyed(s0.(memory := memory), if answer.Unknown? then Kept(s.live[sp.traceId].Record()) else answer, sp, cfg)
    else
      Absorbed(s0, sp, now, cfg)
  }

  function ReasonAt(t: Trace, cfg: Config): SendReason {
    if t.root.Some? then GotRoot
    else if Wrap32(cfg.spanLimit) > 0 && t.DescendantCount() > Wrap32(cfg.spanLimit) then SpanLimit
    else Expired
  }

  /** Deciding a trace and handing it over: nothing happens to a trace that was sent before. */
  ghost function Decided(s: State, t: Trace, v: Verdict, reason: SendReason, now: Time, cfg: Config): State {
    if t.sent then s
    else
      var t' := t.(sampleRate := v.rate, keep := v.keep, sent := true);
      var s1 := s.(memory := s.memory.Recorded(t.id, v.keep, t'.Record(), now), decided := s.decided + [t.id]);
      if !v.keep && !cfg.dryRun then s1.(dropped := s1.dropped + t.spans)
      else s1.(outgoing := s1.outgoing + [Sendable(t', v.keep, reason)])
  }

  /** The traces of a tick carry their own reason; an early ejection has one for all. */
  ghost function DecidedAll(s: State, ts: seq<Trace>, vs: seq<Verdict>, early: bool, now: Time, cfg: Config): State
    requires |ts| == |vs|
  {
    if ts == [] then s
    else
      var n := |ts| - 1;
      var s' := DecidedAll(s, ts[..n], vs[..n], early, now, cfg);
      Decided(s', ts[n], vs[n], if early then EjectedMemsize else ReasonAt(ts[n], cfg), now, cfg)
  }

  function Removed(s: State, ids: set<string>): State {
    s.(live := s.live - ids, queue := s.queue - ids)
  }

  function Traces(live: map<string, Trace>, ids: seq<string>): seq<Trace>
    requires forall id :: id in ids ==> id in live
  {
    seq(|ids|, i requires 0 <= i < |ids| => live[ids[i]])
  }

  /** The victims of an early ejection: traces in the given order, until more than `bytes` are gone. */
  function Victims(ts: seq<Trace>, bytes: int): seq<Trace> {
    if ts == [] then []
    else if ts[0].sent then Victims(ts[1..], bytes)
    else [ts[0]] + if ts[0].dataSize > bytes then [] else Victims(ts[1..], bytes - ts[0].dataSize)
  }

  function TraceIds(ts: seq<Trace>): seq<string> {
    seq(|ts|, i requires 0 <= i < |ts| => ts[i].id)
  }

  /** What the sender makes of a trace: every span, with the rate and the counts of the trace. */
  function EmissionsOf(t: Trace, cfg: Config): seq<Emission> {
    seq(|t.spans|, i requires 0 <= i < |t.spans| =>
      Emission(t.spans[i], false, MergedRate(t.spans[i].sampleRate, t.sampleRate, cfg.dryRun),
               MarksFor(t.spans[i], t.DescendantCount(), CountsOf(t.spans), cfg)))
  }

  /** The sender takes the oldest trace of the channel and transmits its spans. */
  function Transmitted(s: State, cfg: Config): State
    requires s.outgoing != []
  {
    var t := s.outgoing[0].trace;
    s.(outgoing := s.outgoing[1..], emitted := s.emitted + EmissionsOf(t, cfg))
  }

  /** One pass of the worker's loop or of its sender, or one critical section of the two goroutines that tend the
      memory of drops.
      What the program leaves open is in the event: the clock, false positives, the sampler's verdicts,
      the order among equal deadlines (Tick) and by memory impact (Early). */
  datatype Event =
    | Receive(now: Time, cfg: Config, sp: Span, collides: bool)
    | Tick(now: Time, cfg: Config, due: seq<string>, verdicts: seq<Verdict>)
    | Early(now: Time, cfg: Config, order: seq<string>, bytes: int, verdicts: seq<Verdict>)
    | Reload(now: Time, cfg: Config, keptSize: int)
    | Send(now: Time, cfg: Config)
    | Tend(now: Time, cfg: Config, part: DropMemory.Event)
    | CleanUp(now: Time, cfg: Config)

  ghost predicate Next(s: State, e: Event, s': State) {
    match e
    case Receive(now, cfg, sp, collides) => s' == Processed(s, sp, now, cfg, collides)
    case Tick(now, cfg, due, verdicts) =>
      && IsTake(s.queue, now, cfg.maxExpired, {}, due) && (forall id :: id in due ==> id in s.live)
      && |verdicts| == |due|
      && s' == DecidedAll(Removed(s, Elements(due)), Traces(s.live, due), verdicts, false, now, cfg)
    case Early(now, cfg, order, bytes, verdicts) =>
      && IsOrder(order, s.live.Keys)
      && var ts := Victims(Traces(s.live, order), bytes);
      && |verdicts| == |ts|
      && s' == Removed(DecidedAll(s, ts, verdicts, true, now, cfg), Elements(TraceIds(ts)))
    case Reload(now, cfg, keptSize) => s' == s.(memory := s.memory.Resized(keptSize))
    case Send(now, cfg) => s.outgoing != [] && s' == Transmitted(s, cfg)
    case Tend(now, cfg, part) =>
      && !part.Add? && DropMemory.Next(s.memory.drop, part, s'.memory.drop)
      && s' == s.(memory := s.memory.(drop := s'.memory.drop))
    case CleanUp(now, cfg) => s' == s.(memory := s.memory.CleanedUp(now))
  }

  /** Clocks do not run backwards. */
  ghost predicate IsRun(run: seq<State>, events: seq<Event>) {
    && |run| == |events| + 1
    && (forall i :: 0 <= i < |events| ==> Next(run[i], events[i], run[i + 1]))
    && (forall i, j :: 0 <= i <= j < |events| ==> events[i].now <= events[j].now)
  }
}
