/** Sums over sequences, for what is spread over several goroutines. */
module Sums {
  function Total<A>(bags: seq<multiset<A>>): multiset<A> {
    if bags == [] then multiset{} else Total(bags[..|bags| - 1]) + bags[|bags| - 1]
  }

  lemma {:induction false} TotalUpdate<A>(bags: seq<multiset<A>>, i: nat, b: multiset<A>)
    requires i < |bags|
    ensures Total(bags[i := b]) + bags[i] == Total(bags) + b
  {
    var n := |bags| - 1;
    if i < n {
      TotalUpdate(bags[..n], i, b);
      assert bags[i := b][..n] == bags[..n][i := b];
      Exchange(Total(bags[..n][i := b]), Total(bags[..n]), bags[i], b, bags[n]);
    } else {
      assert bags[i := b][..n] == bags[..n];
      Swap(Total(bags[..n]), b, bags[i]);
    }
  }

  lemma Swap<A>(a: multiset<A>, b: multiset<A>, c: multiset<A>)
    ensures a + b + c == a + c + b
  {
  }

  lemma Exchange<A>(a: multiset<A>, b: multiset<A>, c: multiset<A>, d: multiset<A>, more: multiset<A>)
    requires a + c == b + d
    ensures a + more + c == b + more + d
  {
    forall x ensures (a + more + c)[x] == (b + more + d)[x] {
      assert (a + c)[x] == (b + d)[x];
    }
  }

  lemma {:induction false} TotalOfNothing<A>(bags: seq<multiset<A>>)
    requires forall i :: 0 <= i < |bags| ==> bags[i] == multiset{}
    ensures Total(bags) == multiset{}
  {
    if bags != [] {
      TotalOfNothing(bags[..|bags| - 1]);
    }
  }

  function Sum(ns: seq<nat>): nat {
    if ns == [] then 0 else Sum(ns[..|ns| - 1]) + ns[|ns| - 1]
  }

  lemma {:induction false} SumUpdate(ns: seq<nat>, i: nat, n: nat)
    requires i < |ns|
    ensures Sum(ns[i := n]) + ns[i] == Sum(ns) + n
  {
    var last := |ns| - 1;
    if i < last {
      SumUpdate(ns[..last], i, n);
      assert ns[i := n][..last] == ns[..last][i := n];
    } else {
      assert ns[i := n][..last] == ns[..last];
    }
  }

  function Flatten<A>(s: seq<seq<A>>): seq<A> {
    if s == [] then [] else Flatten(s[..|s| - 1]) + s[|s| - 1]
  }
}

/** generics/fanout.go: the goroutines of Fanout, FanoutToMap and FanoutChunksToMap as interleaved steps over two
    bounded channels. outs[i] are the outputs of the i-th item that pass the predicate, whichever worker makes
    them; the channels hold at most p entries, and there are p workers. */
module Fanout {
  import opened Sums

  datatype Phase<U> = Receiving | Sending(left: seq<U>) | Cleaning | Done

  datatype Worker<U> = Worker(phase: Phase<U>, took: seq<nat>, cleanups: nat)

  /** fanout holds items by index; taken is the history of what the workers took from it. */
  datatype State<U> = State(next: nat, fanout: seq<nat>, fanoutClosed: bool, workers: seq<Worker<U>>,
                            fanin: seq<U>, faninClosed: bool, result: seq<U>, collected: bool, returned: bool,
                            taken: seq<nat>)

  function Init<U>(p: nat): State<U> {
    State(0, [], false, seq(p, _ => Worker(Receiving, [], 0)), [], false, [], false, false, [])
  }

  function With<U>(s: State<U>, w: nat, phase: Phase<U>): State<U>
    requires w < |s.workers|
  {
    s.(workers := s.workers[w := s.workers[w].(phase := phase)])
  }

  datatype Step =
    | Produce
    | CloseFanout
    | Take(w: nat)
    | Send(w: nat)
    | Finish(w: nat)
    | Exit(w: nat)
    | Clean(w: nat)
    | Collect
    | CloseFanin
    | EndCollect
    | Return

  /** A goroutine can take this step: sends wait for room and receives for an entry or a close. */
  predicate Enabled<U>(outs: seq<seq<U>>, p: nat, s: State<U>, e: Step) {
    match e
    case Produce => s.next < |outs| && |s.fanout| < p
    case CloseFanout => s.next >= |outs| && !s.fanoutClosed
    case Take(w) => w < |s.workers| && s.workers[w].phase.Receiving? && s.fanout != [] && s.fanout[0] < |outs|
    case Send(w) => w < |s.workers| && s.workers[w].phase.Sending? && s.workers[w].phase.left != [] && |s.fanin| < p
    case Finish(w) => w < |s.workers| && s.workers[w].phase.Sending? && s.workers[w].phase.left == []
    case Exit(w) => w < |s.workers| && s.workers[w].phase.Receiving? && s.fanout == [] && s.fanoutClosed
    case Clean(w) => w < |s.workers| && s.workers[w].phase.Cleaning?
    case Collect => s.fanin != [] && !s.collected
    case CloseFanin => !s.faninClosed && forall w :: 0 <= w < |s.workers| ==> s.workers[w].phase.Done?
    case EndCollect => s.faninClosed && s.fanin == [] && !s.collected
    case Return => s.fanoutClosed && s.collected && !s.returned
  }

  function After<U>(outs: seq<seq<U>>, p: nat, s: State<U>, e: Step): State<U>
    requires Enabled(outs, p, s, e)
  {
    match e
    case Produce => s.(next := s.next + 1, fanout := s.fanout + [s.next])
    case CloseFanout => s.(fanoutClosed := true)
    case Take(w) =>
      var i := s.fanout[0];
      s.(workers := s.workers[w := s.workers[w].(phase := Sending(outs[i]), took := s.workers[w].took + [i])],
         fanout := s.fanout[1..], taken := s.taken + [i])
    case Send(w) =>
      var left := s.workers[w].phase.left;
      With(s, w, Sending(left[1..])).(fanin := s.fanin + [left[0]])
    case Finish(w) => With(s, w, Receiving)
    case Exit(w) => With(s, w, Cleaning)
    case Clean(w) => s.(workers := s.workers[w := s.workers[w].(phase := Done, cleanups := s.workers[w].cleanups + 1)])
    case Collect => s.(fanin := s.fanin[1..], result := s.result + [s.fanin[0]])
    case CloseFanin => s.(faninClosed := true)
    case EndCollect => s.(collected := true)
    case Return => s.(returned := true)
  }

  ghost predicate IsRun<U>(outs: seq<seq<U>>, p: nat, run: seq<State<U>>, steps: seq<Step>) {
    && |run| == |steps| + 1 && run[0] == Init(p)
    && forall i :: 0 <= i < |steps| ==>
         Enabled(outs, p, run[i], steps[i]) && run[i + 1] == After(outs, p, run[i], steps[i])
  }

  function Indices(n: nat): seq<nat> {
    seq(n, i => i)
  }

  function Unsent<U>(w: Worker<U>): multiset<U> {
    if w.phase.Sending? then multiset(w.phase.left) else multiset{}
  }

  function Lefts<U>(workers: seq<Worker<U>>): seq<multiset<U>> {
    seq(|workers|, i requires 0 <= i < |workers| => Unsent(workers[i]))
  }

  function Tooks<U>(workers: seq<Worker<U>>): seq<multiset<nat>> {
    seq(|workers|, i requires 0 <= i < |workers| => multiset(workers[i].took))
  }

  /** Items go through the channel in order, and each that has been taken was taken by one worker. */
  ghost predicate ItemsOnce<U>(outs: seq<seq<U>>, s: State<U>) {
    && s.next <= |outs| && s.taken + s.fanout == Indices(s.next)
    && Total(Tooks(s.workers)) == multiset(s.taken)
  }

  /** The outputs of the items taken are with a worker, in the channel, or collected. */
  ghost predicate OutputsOnce<U>(outs: seq<seq<U>>, s: State<U>) {
    |s.taken| <= |outs| && Outputs(s) == multiset(Flatten(outs[..|s.taken|]))
  }

  /** What has ended, and when. */
  ghost predicate Orderly<U>(outs: seq<seq<U>>, p: nat, s: State<U>) {
    && |s.workers| == p && |s.fanout| <= p && |s.fanin| <= p
    && (s.fanoutClosed ==> s.next == |outs|)
    && (forall w :: 0 <= w < p ==> s.workers[w].cleanups == if s.workers[w].phase.Done? then 1 else 0)
    && (forall w :: 0 <= w < p && (s.workers[w].phase.Cleaning? || s.workers[w].phase.Done?) ==>
          s.fanoutClosed && s.fanout == [])
    && (s.faninClosed ==> forall w :: 0 <= w < p ==> s.workers[w].phase.Done?)
    && (s.collected ==> s.faninClosed && s.fanin == [])
    && (s.returned ==> s.fanoutClosed && s.collected)
  }

  ghost predicate Safe<U>(outs: seq<seq<U>>, p: nat, s: State<U>) {
    ItemsOnce(outs, s) && OutputsOnce(outs, s) && Orderly(outs, p, s)
  }

  lemma InitIsSafe<U>(outs: seq<seq<U>>, p: nat)
    ensures Safe(outs, p, Init<U>(p))
  {
    var s := Init<U>(p);
    TotalOfNothing(Tooks(s.workers));
    TotalOfNothing(Lefts(s.workers));
    assert outs[..0] == [];
  }

  /** Changing one worker changes the totals by its share. */
  lemma OneWorker<U>(workers: seq<Worker<U>>, w: nat, x: Worker<U>)
    requires w < |workers|
    ensures Total(Lefts(workers[w := x])) + Unsent(workers[w]) == Total(Lefts(workers)) + Unsent(x)
    ensures Total(Tooks(workers[w := x])) + multiset(workers[w].took) == Total(Tooks(workers)) + multiset(x.took)
  {
    assert Lefts(workers[w := x]) == Lefts(workers)[w := Unsent(x)];
    assert Tooks(workers[w := x]) == Tooks(workers)[w := multiset(x.took)];
    TotalUpdate(Lefts(workers), w, Unsent(x));
    TotalUpdate(Tooks(workers), w, multiset(x.took));
  }

  /** The worker that a step is about. */
  predicate IsWorkers(e: Step) {
    e.Take? || e.Send? || e.Finish? || e.Exit? || e.Clean?
  }

  /** How a worker is after its step. */
  lemma WorkerAfter<U>(outs: seq<seq<U>>, p: nat, s: State<U>, e: Step)
    requires Enabled(outs, p, s, e)
    ensures var s' := After(outs, p, s, e);
      if IsWorkers(e) then |s'.workers| == |s.workers| && s'.workers == s.workers[e.w := s'.workers[e.w]]
      else s'.workers == s.workers
  {
  }

  lemma OrderlyKept<U>(outs: seq<seq<U>>, p: nat, s: State<U>, e: Step)
    requires Orderly(outs, p, s) && Enabled(outs, p, s, e) && s.next <= |outs|
    ensures Orderly(outs, p, After(outs, p, s, e))
  {
    WorkerAfter(outs, p, s, e);
  }

  /** The first item in the channel is the next to be taken. */
  lemma InOrder<U>(outs: seq<seq<U>>, s: State<U>)
    requires ItemsOnce(outs, s)
    ensures |s.taken| + |s.fanout| == s.next
    ensures s.fanout != [] ==> s.fanout[0] == |s.taken| < |outs|
  {
    assert |s.taken + s.fanout| == s.next;
    if s.fanout != [] {
      assert (s.taken + s.fanout)[|s.taken|] == Indices(s.next)[|s.taken|];
    }
  }

  lemma Cancel<A>(a: multiset<A>, b: multiset<A>, was: multiset<A>, more: multiset<A>)
    requires b + was == a + (was + more)
    ensures b == a + more
  {
    forall x ensures b[x] == (a + more)[x] {
      assert (b + was)[x] == (a + (was + more))[x];
    }
  }

  lemma Same<A>(a: multiset<A>, b: multiset<A>, was: multiset<A>)
    requires b + was == a + was
    ensures b == a
  {
    Cancel(a, b, was, multiset{});
  }

  lemma TakeAddsItem<U>(outs: seq<seq<U>>, p: nat, s: State<U>, w: nat)
    requires Enabled(outs, p, s, Take(w))
    ensures Total(Tooks(After(outs, p, s, Take(w)).workers)) == Total(Tooks(s.workers)) + multiset{s.fanout[0]}
  {
    WorkerAfter(outs, p, s, Take(w));
    var s', took := After(outs, p, s, Take(w)), s.workers[w].took;
    OneWorker(s.workers, w, s'.workers[w]);
    assert s'.workers[w].took == took + [s.fanout[0]];
    hide After, Enabled, Total, Tooks, Lefts, Unsent;
    assert multiset(took + [s.fanout[0]]) == multiset(took) + multiset{s.fanout[0]};
    Cancel(Total(Tooks(s.workers)), Total(Tooks(s'.workers)), multiset(took), multiset{s.fanout[0]});
  }

  lemma OthersAddNoItem<U>(outs: seq<seq<U>>, p: nat, s: State<U>, e: Step)
    requires Enabled(outs, p, s, e) && !e.Take?
    ensures Total(Tooks(After(outs, p, s, e).workers)) == Total(Tooks(s.workers))
  {
    WorkerAfter(outs, p, s, e);
    var s' := After(outs, p, s, e);
    if IsWorkers(e) {
      OneWorker(s.workers, e.w, s'.workers[e.w]);
      assert s'.workers[e.w].took == s.workers[e.w].took;
      hide After, Enabled, Total, Tooks, Lefts, Unsent;
      Same(Total(Tooks(s.workers)), Total(Tooks(s'.workers)), multiset(s.workers[e.w].took));
    }
  }

  /** The items, produced and taken, after a step. */
  lemma ItemsAfter<U>(outs: seq<seq<U>>, p: nat, s: State<U>, e: Step)
    requires Enabled(outs, p, s, e)
    ensures var s' := After(outs, p, s, e);
      if e.Produce? then s'.next == s.next + 1 <= |outs| && s'.fanout == s.fanout + [s.next] && s'.taken == s.taken
      else if e.Take? then
        && s.fanout != [] && s'.next == s.next && s'.fanout == s.fanout[1..]
        && s'.taken == s.taken + [s.fanout[0]]
      else s'.next == s.next && s'.fanout == s.fanout && s'.taken == s.taken
  {
  }

  lemma ItemsKept<U>(outs: seq<seq<U>>, p: nat, s: State<U>, e: Step)
    requires ItemsOnce(outs, s) && Enabled(outs, p, s, e)
    ensures ItemsOnce(outs, After(outs, p, s, e))
  {
    OrderKept(outs, p, s, e);
    ItemsAfter(outs, p, s, e);
    if e.Take? {
      TakeAddsItem(outs, p, s, e.w);
      hide Total, Tooks, After, Enabled, Indices;
      assert multiset(s.taken + [s.fanout[0]]) == multiset(s.taken) + multiset{s.fanout[0]};
    } else {
      OthersAddNoItem(outs, p, s, e);
      hide Total, Tooks, After, Enabled, Indices;
    }
  }

  lemma OrderKept<U>(outs: seq<seq<U>>, p: nat, s: State<U>, e: Step)
    requires s.next <= |outs| && s.taken + s.fanout == Indices(s.next) && Enabled(outs, p, s, e)
    ensures var s' := After(outs, p, s, e); s'.next <= |outs| && s'.taken + s'.fanout == Indices(s'.next)
  {
    ItemsAfter(outs, p, s, e);
    hide After, Enabled;
    if e.Produce? {
      assert s.taken + (s.fanout + [s.next]) == (s.taken + s.fanout) + [s.next];
    } else if e.Take? {
      assert (s.taken + [s.fanout[0]]) + s.fanout[1..] == s.taken + s.fanout;
    }
  }

  function Outputs<U>(s: State<U>): multiset<U> {
    multiset(s.result) + multiset(s.fanin) + Total(Lefts(s.workers))
  }

  /** A take adds the outputs of the item. */
  lemma TakeAdds<U>(outs: seq<seq<U>>, p: nat, s: State<U>, w: nat)
    requires Enabled(outs, p, s, Take(w))
    ensures Outputs(After(outs, p, s, Take(w))) == Outputs(s) + multiset(outs[s.fanout[0]])
  {
    WorkerAfter(outs, p, s, Take(w));
    var s', out := After(outs, p, s, Take(w)), outs[s.fanout[0]];
    OneWorker(s.workers, w, s'.workers[w]);
    assert Unsent(s.workers[w]) == multiset{} && Unsent(s'.workers[w]) == multiset(out);
    assert s'.result == s.result && s'.fanin == s.fanin;
    hide After, Enabled, Total, Tooks, Lefts, Unsent;
    assert Total(Lefts(s'.workers)) == Total(Lefts(s.workers)) + multiset(out);
    Regroup(multiset(s.result), multiset(s.fanin), Total(Lefts(s.workers)), multiset(out));
  }

  lemma Regroup<A>(a: multiset<A>, b: multiset<A>, c: multiset<A>, d: multiset<A>)
    ensures a + b + (c + d) == a + b + c + d && a + (b + d) + c == a + b + (c + d) && (a + d) + b + c == a + (b + d) + c
  {
  }

  lemma MoveOne<A>(s: seq<A>)
    requires s != []
    ensures multiset(s) == multiset(s[1..]) + multiset{s[0]}
  {
    assert s == [s[0]] + s[1..];
  }

  /** A send moves an output to the channel. */
  lemma SendMoves<U>(outs: seq<seq<U>>, p: nat, s: State<U>, w: nat)
    requires Enabled(outs, p, s, Send(w))
    ensures Outputs(After(outs, p, s, Send(w))) == Outputs(s)
  {
    WorkerAfter(outs, p, s, Send(w));
    var s', left := After(outs, p, s, Send(w)), s.workers[w].phase.left;
    OneWorker(s.workers, w, s'.workers[w]);
    MoveOne(left);
    assert Unsent(s.workers[w]) == multiset(left) && Unsent(s'.workers[w]) == multiset(left[1..]);
    assert s'.result == s.result && s'.fanin == s.fanin + [left[0]];
    hide After, Enabled, Total, Tooks, Lefts, Unsent;
    assert multiset(s.fanin + [left[0]]) == multiset(s.fanin) + multiset{left[0]};
    Cancel(Total(Lefts(s'.workers)), Total(Lefts(s.workers)), multiset(left[1..]), multiset{left[0]});
    Regroup(multiset(s.result), multiset(s.fanin), Total(Lefts(s'.workers)), multiset{left[0]});
  }

  /** A collected output moves to the result. */
  lemma CollectMoves<U>(outs: seq<seq<U>>, p: nat, s: State<U>)
    requires Enabled(outs, p, s, Collect)
    ensures Outputs(After(outs, p, s, Collect)) == Outputs(s)
  {
    hide Total, Lefts;
    MoveOne(s.fanin);
    assert multiset(s.result + [s.fanin[0]]) == multiset(s.result) + multiset{s.fanin[0]};
    Regroup(multiset(s.result), multiset(s.fanin[1..]), Total(Lefts(s.workers)), multiset{s.fanin[0]});
  }

  lemma OthersMoveNothing<U>(outs: seq<seq<U>>, p: nat, s: State<U>, e: Step)
    requires Enabled(outs, p, s, e) && !e.Take? && !e.Send? && !e.Collect?
    ensures Outputs(After(outs, p, s, e)) == Outputs(s)
  {
    WorkerAfter(outs, p, s, e);
    var s' := After(outs, p, s, e);
    assert s'.result == s.result && s'.fanin == s.fanin;
    if IsWorkers(e) {
      OneWorker(s.workers, e.w, s'.workers[e.w]);
      assert Unsent(s.workers[e.w]) == Unsent(s'.workers[e.w]) == multiset{};
      hide After, Enabled, Total, Tooks, Lefts, Unsent;
      Same(Total(Lefts(s.workers)), Total(Lefts(s'.workers)), multiset{});
    }
  }

  lemma OutputsKept<U>(outs: seq<seq<U>>, p: nat, s: State<U>, e: Step)
    requires ItemsOnce(outs, s) && OutputsOnce(outs, s) && Enabled(outs, p, s, e)
    ensures OutputsOnce(outs, After(outs, p, s, e))
  {
    InOrder(outs, s);
    ItemsAfter(outs, p, s, e);
    if e.Take? {
      TakeAdds(outs, p, s, e.w);
      hide Outputs, ItemsOnce, After, Enabled;
      FlattenOne(outs, |s.taken|);
    } else {
      StaySame(outs, p, s, e);
      hide Outputs, ItemsOnce, After, Enabled;
    }
  }

  lemma FlattenOne<U>(outs: seq<seq<U>>, i: nat)
    requires i < |outs|
    ensures multiset(Flatten(outs[..i + 1])) == multiset(Flatten(outs[..i])) + multiset(outs[i])
  {
    assert outs[..i + 1][..i] == outs[..i];
  }

  lemma StaySame<U>(outs: seq<seq<U>>, p: nat, s: State<U>, e: Step)
    requires Enabled(outs, p, s, e) && !e.Take?
    ensures Outputs(After(outs, p, s, e)) == Outputs(s)
  {
    hide Outputs, After;
    if e.Send? {
      SendMoves(outs, p, s, e.w);
    } else if e.Collect? {
      CollectMoves(outs, p, s);
    } else {
      OthersMoveNothing(outs, p, s, e);
    }
  }

  lemma StepKeeps<U>(outs: seq<seq<U>>, p: nat, s: State<U>, e: Step)
    requires Safe(outs, p, s) && Enabled(outs, p, s, e)
    ensures Safe(outs, p, After(outs, p, s, e))
  {
    OrderlyKept(outs, p, s, e);
    ItemsKept(outs, p, s, e);
    OutputsKept(outs, p, s, e);
  }

  lemma {:induction false} RunIsSafe<U>(outs: seq<seq<U>>, p: nat, run: seq<State<U>>, steps: seq<Step>)
    requires IsRun(outs, p, run, steps)
    ensures Safe(outs, p, run[|steps|])
    decreases |steps|
  {
    if steps == [] {
      InitIsSafe(outs, p);
    } else {
      hide Safe;
      var n := |steps| - 1;
      RunIsSafe(outs, p, run[..n + 1], steps[..n]);
      StepKeeps(outs, p, run[n], steps[n]);
    }
  }

  /** Whatever the schedule, what is returned are the outputs of every item, in some order; every item was
      processed once, and every worker was cleaned up once. */
  lemma ReturnsAllOutputs<U>(outs: seq<seq<U>>, p: nat, run: seq<State<U>>, steps: seq<Step>)
    requires IsRun(outs, p, run, steps) && run[|steps|].returned
    ensures var s := run[|steps|];
      && multiset(s.result) == multiset(Flatten(outs)) && |s.workers| == p
      && Total(Tooks(s.workers)) == multiset(Indices(|outs|))
      && forall w :: 0 <= w < p ==> s.workers[w].cleanups == 1
  {
    RunIsSafe(outs, p, run, steps);
    var s := run[|steps|];
    TotalOfNothing(Lefts(s.workers));
    NothingStaysBehind(outs, p, run, steps);
    assert outs[..|outs|] == outs && s.taken + [] == s.taken;
  }

  /** With workers, the fan-out channel is empty on return; without, it never held anything. */
  lemma {:induction false} NothingStaysBehind<U>(outs: seq<seq<U>>, p: nat, run: seq<State<U>>, steps: seq<Step>)
    requires IsRun(outs, p, run, steps)
    ensures var s := run[|steps|]; s.returned ==> s.fanout == []
  {
    RunIsSafe(outs, p, run, steps);
    var s := run[|steps|];
    if p > 0 && s.returned {
      assert s.workers[0].phase.Done?;
    }
  }

  /** After its cleanup a worker takes no item, and is not cleaned up again. */
  lemma CleanupIsLast<U>(outs: seq<seq<U>>, p: nat, run: seq<State<U>>, steps: seq<Step>, i: nat, w: nat)
    requires IsRun(outs, p, run, steps) && i < |steps| && w < p
    ensures w < |run[i].workers| && w < |run[i + 1].workers|
    ensures run[i].workers[w].cleanups > 0 ==> run[i + 1].workers[w] == run[i].workers[w]
  {
    RunIsSafe(outs, p, run[..i + 1], steps[..i]);
    hide Safe, After;
    assert run[i + 1] == After(outs, p, run[i], steps[i]);
    CleanedStays(outs, p, run[i], steps[i], w);
  }

  lemma CleanedStays<U>(outs: seq<seq<U>>, p: nat, s: State<U>, e: Step, w: nat)
    requires Safe(outs, p, s) && Enabled(outs, p, s, e) && w < p
    ensures w < |s.workers| && w < |After(outs, p, s, e).workers|
    ensures s.workers[w].cleanups > 0 ==> After(outs, p, s, e).workers[w] == s.workers[w]
  {
    hide ItemsOnce, OutputsOnce;
  }

  /** Until it returns, some goroutine can take a step. */
  lemma NeverStuck<U>(outs: seq<seq<U>>, p: nat, s: State<U>)
    requires Safe(outs, p, s) && !s.returned && (p > 0 || outs == [])
    ensures exists e :: Enabled(outs, p, s, e)
  {
    if s.fanin != [] {
      assert Enabled(outs, p, s, Collect);
    } else if w :| 0 <= w < p && !s.workers[w].phase.Done? {
      WorkerGoesOn(outs, p, s, w);
    } else {
      AllDone(outs, p, s);
    }
  }

  lemma WorkerGoesOn<U>(outs: seq<seq<U>>, p: nat, s: State<U>, w: nat)
    requires Safe(outs, p, s) && w < p && !s.workers[w].phase.Done? && s.fanin == []
    ensures exists e :: Enabled(outs, p, s, e)
  {
    match s.workers[w].phase
    case Sending(left) =>
      assert Enabled(outs, p, s, if left == [] then Finish(w) else Send(w));
    case Cleaning =>
      assert Enabled(outs, p, s, Clean(w));
    case Receiving =>
      if s.fanout != [] {
        assert (s.taken + s.fanout)[|s.taken|] == Indices(s.next)[|s.taken|];
        assert Enabled(outs, p, s, Take(w));
      } else if s.fanoutClosed {
        assert Enabled(outs, p, s, Exit(w));
      } else {
        assert Enabled(outs, p, s, if s.next < |outs| then Produce else CloseFanout);
      }
  }

  lemma AllDone<U>(outs: seq<seq<U>>, p: nat, s: State<U>)
    requires Safe(outs, p, s) && !s.returned && s.fanin == [] && (p > 0 || outs == [])
    requires forall w :: 0 <= w < p ==> s.workers[w].phase.Done?
    ensures exists e :: Enabled(outs, p, s, e)
  {
    if !s.faninClosed {
      assert Enabled(outs, p, s, CloseFanin);
    } else if !s.collected {
      assert Enabled(outs, p, s, EndCollect);
    } else {
      assert p == 0 || s.workers[0].phase.Done?;
      assert Enabled(outs, p, s, if s.fanoutClosed then Return else CloseFanout);
    }
  }

  /** Without workers, items that no one takes keep the call from ever returning. */
  lemma NoWorkersNeverReturn<U>(outs: seq<seq<U>>, run: seq<State<U>>, steps: seq<Step>)
    requires IsRun(outs, 0, run, steps) && outs != []
    ensures !run[|steps|].returned
  {
    RunIsSafe(outs, 0, run, steps);
    NoWorkersProduceNothing(outs, run, steps);
  }

  lemma {:induction false} NoWorkersProduceNothing<U>(outs: seq<seq<U>>, run: seq<State<U>>, steps: seq<Step>)
    requires IsRun(outs, 0, run, steps)
    ensures run[|steps|].next == 0
    decreases |steps|
  {
    if steps != [] {
      var n := |steps| - 1;
      NoWorkersProduceNothing(outs, run[..n + 1], steps[..n]);
    }
  }

  /** How many steps are left at most. */
  function Work<U>(outs: seq<seq<U>>, s: State<U>): nat {
    Sum(ItemCosts(outs, s)) + Sum(WorkerCosts(s.workers)) + |s.fanin|
    + (if s.fanoutClosed then 0 else 1) + (if s.faninClosed then 0 else 1)
    + (if s.collected then 0 else 1) + if s.returned then 0 else 1
  }

  /** Items that were not taken: those not produced take one step more. */
  function ItemCosts<U>(outs: seq<seq<U>>, s: State<U>): seq<nat> {
    seq(|outs|, i requires 0 <= i < |outs| => ItemCost(outs, s, i))
  }

  function ItemCost<U>(outs: seq<seq<U>>, s: State<U>, i: nat): nat
    requires i < |outs|
  {
    if i < |s.taken| then 0 else if i < s.next then 2 + 2 * |outs[i]| else 3 + 2 * |outs[i]|
  }

  function WorkerCosts<U>(workers: seq<Worker<U>>): seq<nat> {
    seq(|workers|, w requires 0 <= w < |workers| => WorkerCost(workers[w]))
  }

  function WorkerCost<U>(w: Worker<U>): nat {
    match w.phase
    case Receiving => 2
    case Sending(left) => 3 + 2 * |left|
    case Cleaning => 1
    case Done => 0
  }

  lemma WorkerWork<U>(workers: seq<Worker<U>>, w: nat, x: Worker<U>)
    requires w < |workers|
    ensures Sum(WorkerCosts(workers[w := x])) + WorkerCost(workers[w]) == Sum(WorkerCosts(workers)) + WorkerCost(x)
  {
    assert WorkerCosts(workers[w := x]) == WorkerCosts(workers)[w := WorkerCost(x)];
    SumUpdate(WorkerCosts(workers), w, WorkerCost(x));
  }

  lemma ItemWork<U>(outs: seq<seq<U>>, s: State<U>, s': State<U>, i: nat)
    requires i < |outs| && forall j :: 0 <= j < |outs| && j != i ==> ItemCost(outs, s', j) == ItemCost(outs, s, j)
    ensures Sum(ItemCosts(outs, s')) + ItemCost(outs, s, i) == Sum(ItemCosts(outs, s)) + ItemCost(outs, s', i)
  {
    assert ItemCosts(outs, s') == ItemCosts(outs, s)[i := ItemCost(outs, s', i)];
    SumUpdate(ItemCosts(outs, s), i, ItemCost(outs, s', i));
  }

  /** Every step leaves less work: no schedule goes on for ever. */
  lemma EveryStepCounts<U>(outs: seq<seq<U>>, p: nat, s: State<U>, e: Step)
    requires Safe(outs, p, s) && Enabled(outs, p, s, e)
    ensures Work(outs, After(outs, p, s, e)) < Work(outs, s)
  {
    hide Work, After;
    if e.Produce? {
      ProduceCounts(outs, p, s);
    } else if e.Take? {
      TakeCounts(outs, p, s, e.w);
    } else if IsWorkers(e) {
      WorkerCounts(outs, p, s, e);
    } else {
      OtherCounts(outs, p, s, e);
    }
  }

  lemma OtherCounts<U>(outs: seq<seq<U>>, p: nat, s: State<U>, e: Step)
    requires Orderly(outs, p, s) && Enabled(outs, p, s, e) && !IsWorkers(e) && !e.Produce?
    ensures Work(outs, After(outs, p, s, e)) < Work(outs, s)
  {
    assert ItemCosts(outs, After(outs, p, s, e)) == ItemCosts(outs, s);
  }

  lemma WorkerCounts<U>(outs: seq<seq<U>>, p: nat, s: State<U>, e: Step)
    requires Enabled(outs, p, s, e) && (e.Send? || e.Finish? || e.Exit? || e.Clean?)
    ensures Work(outs, After(outs, p, s, e)) < Work(outs, s)
  {
    var s' := After(outs, p, s, e);
    assert ItemCosts(outs, s') == ItemCosts(outs, s);
    WorkerWork(s.workers, e.w, s'.workers[e.w]);
    WorkerAfter(outs, p, s, e);
  }

  lemma ProduceCounts<U>(outs: seq<seq<U>>, p: nat, s: State<U>)
    requires Safe(outs, p, s) && Enabled(outs, p, s, Produce)
    ensures Work(outs, After(outs, p, s, Produce)) < Work(outs, s)
  {
    assert |s.taken + s.fanout| == s.next;
    ItemWork(outs, s, After(outs, p, s, Produce), s.next);
  }

  lemma TakeCounts<U>(outs: seq<seq<U>>, p: nat, s: State<U>, w: nat)
    requires Safe(outs, p, s) && Enabled(outs, p, s, Take(w))
    ensures Work(outs, After(outs, p, s, Take(w))) < Work(outs, s)
  {
    var s', i := After(outs, p, s, Take(w)), s.fanout[0];
    assert (s.taken + s.fanout)[|s.taken|] == Indices(s.next)[|s.taken|];
    assert i == |s.taken| && |s.taken + s.fanout| == s.next;
    ItemWork(outs, s, s', i);
    WorkerWork(s.workers, w, s'.workers[w]);
    assert s.workers[w := s'.workers[w]] == s'.workers;
  }

  /** A run that cannot go on has returned, exactly when there is a worker or nothing to do. */
  lemma EndsReturned<U>(outs: seq<seq<U>>, p: nat, run: seq<State<U>>, steps: seq<Step>)
    requires IsRun(outs, p, run, steps) && forall e :: !Enabled(outs, p, run[|steps|], e)
    ensures run[|steps|].returned <==> p > 0 || outs == []
    ensures |steps| <= Work(outs, run[0])
  {
    RunIsSafe(outs, p, run, steps);
    RunIsBounded(outs, p, run, steps);
    if p > 0 || outs == [] {
      if !run[|steps|].returned {
        NeverStuck(outs, p, run[|steps|]);
      }
    } else {
      NoWorkersNeverReturn(outs, run, steps);
    }
  }

  lemma {:induction false} RunIsBounded<U>(outs: seq<seq<U>>, p: nat, run: seq<State<U>>, steps: seq<Step>)
    requires IsRun(outs, p, run, steps)
    ensures |steps| + Work(outs, run[|steps|]) <= Work(outs, run[0])
    decreases |steps|
  {
    if steps != [] {
      var n := |steps| - 1;
      RunIsBounded(outs, p, run[..n + 1], steps[..n]);
      RunIsSafe(outs, p, run[..n + 1], steps[..n]);
      EveryStepCounts(outs, p, run[n], steps[n]);
    }
  }
}

/** What the three functions return, by the results of Fanout: a slice, a map over the input, a map over chunks
    of the input. */
module FanoutResults {
  import opened Sums
  import F = Fanout

  /** Assigning pairs to a map one after the other. */
  function ToMap<K, V>(pairs: seq<(K, V)>): map<K, V> {
    if pairs == [] then map[]
    else ToMap(pairs[..|pairs| - 1])[pairs[|pairs| - 1].0 := pairs[|pairs| - 1].1]
  }

  ghost predicate Agreeing<K, V>(pairs: seq<(K, V)>) {
    forall p, q :: p in pairs && q in pairs && p.0 == q.0 ==> p.1 == q.1
  }

  lemma {:induction false} ToMapHolds<K, V>(pairs: seq<(K, V)>)
    requires Agreeing(pairs)
    ensures forall k :: k in ToMap(pairs) ==> (k, ToMap(pairs)[k]) in pairs
    ensures forall p :: p in pairs ==> p.0 in ToMap(pairs) && ToMap(pairs)[p.0] == p.1
  {
    if pairs != [] {
      var n := |pairs| - 1;
      assert pairs == pairs[..n] + [pairs[n]];
      assert pairs[n] in pairs && forall p :: p in pairs[..n] ==> p in pairs;
      ToMapHolds(pairs[..n]);
    }
  }

  lemma SameMembers<A>(a: seq<A>, b: seq<A>)
    requires multiset(a) == multiset(b)
    ensures forall x :: x in a <==> x in b
  {
    assert forall x :: x in a <==> x in multiset(a);
    assert forall x :: x in b <==> x in multiset(b);
  }

  lemma {:induction false} FlattenHolds<A>(s: seq<seq<A>>)
    ensures forall x :: x in Flatten(s) <==> exists i :: 0 <= i < |s| && x in s[i]
  {
    if s != [] {
      var n := |s| - 1;
      FlattenHolds(s[..n]);
      forall x ensures x in Flatten(s) <==> exists i :: 0 <= i < |s| && x in s[i] {
        if i :| 0 <= i < |s| && x in s[i] && i < n {
          assert x in s[..n][i];
        }
        if x in Flatten(s[..n]) {
          var i :| 0 <= i < n && x in s[..n][i];
          assert x in s[i];
        }
      }
    }
  }

  /** The outputs of each item: one, if it passes. */
  function Products<T, U>(input: seq<T>, worker: T -> U, pass: U -> bool): seq<seq<U>> {
    seq(|input|, i requires 0 <= i < |input| => if pass(worker(input[i])) then [worker(input[i])] else [])
  }

  /** The filtered map of the input, in order. */
  function FilterMap<T, U>(input: seq<T>, worker: T -> U, pass: U -> bool): seq<U> {
    if input == [] then []
    else
      var rest, product := FilterMap(input[..|input| - 1], worker, pass), worker(input[|input| - 1]);
      if pass(product) then rest + [product] else rest
  }

  lemma {:induction false} ProductsFlattened<T, U>(input: seq<T>, worker: T -> U, pass: U -> bool)
    ensures Flatten(Products(input, worker, pass)) == FilterMap(input, worker, pass)
  {
    if input != [] {
      var n := |input| - 1;
      ProductsFlattened(input[..n], worker, pass);
      assert Products(input, worker, pass)[..n] == Products(input[..n], worker, pass);
    }
  }

  /** Fanout returns a permutation of the filtered map of its input. */
  lemma FanoutReturnsFilterMap<T, U>(input: seq<T>, p: nat, worker: T -> U, pass: U -> bool, run: seq<F.State<U>>,
                                     steps: seq<F.Step>)
    requires F.IsRun(Products(input, worker, pass), p, run, steps) && run[|steps|].returned
    ensures multiset(run[|steps|].result) == multiset(FilterMap(input, worker, pass))
  {
    F.ReturnsAllOutputs(Products(input, worker, pass), p, run, steps);
    ProductsFlattened(input, worker, pass);
  }

  function PairProducts<T, U>(input: seq<T>, worker: T -> U, pass: U -> bool): seq<seq<(T, U)>> {
    seq(|input|, i requires 0 <= i < |input| =>
      if pass(worker(input[i])) then [(input[i], worker(input[i]))] else [])
  }

  /** FanoutToMap returns the map from the inputs to those of their products that pass. */
  lemma FanoutToMapReturnsMap<T, U>(input: seq<T>, p: nat, worker: T -> U, pass: U -> bool, run: seq<F.State<(T, U)>>,
                                    steps: seq<F.Step>)
    requires F.IsRun(PairProducts(input, worker, pass), p, run, steps) && run[|steps|].returned
    ensures ToMap(run[|steps|].result) == map k | k in input && pass(worker(k)) :: worker(k)
  {
    var outs, result := PairProducts(input, worker, pass), run[|steps|].result;
    F.ReturnsAllOutputs(outs, p, run, steps);
    SameMembers(result, Flatten(outs));
    FlattenHolds(outs);
    assert forall x :: x in result ==> x.0 in input && pass(worker(x.0)) && x.1 == worker(x.0);
    forall k | k in input && pass(worker(k)) ensures (k, worker(k)) in result {
      var i :| 0 <= i < |input| && input[i] == k;
      assert (k, worker(k)) in outs[i];
    }
    ToMapHolds(result);
  }

  /** The chunk size that is used. */
  function EffectiveSize(chunkSize: int): (size: nat)
    ensures size > 0
  {
    if chunkSize <= 0 then 1 else chunkSize
  }

  lemma AtMost(length: nat, size: nat)
    requires size > 0
    ensures forall p: nat :: p <= length / size ==> p * size <= length
    ensures forall p: nat :: p > length / size ==> p * size > length
  {
    forall p: nat ensures p <= length / size ==> p * size <= length {
      if p <= length / size {
        assert p * size <= (length / size) * size;
      }
    }
    forall p: nat ensures p > length / size ==> p * size > length {
      if p > length / size {
        assert p * size >= (length / size + 1) * size;
      }
    }
  }

  /** How many workers a chunked fan-out has: one for each full chunk, or a single one, within the maximum. */
  function Parallelism(length: nat, chunkSize: int, maxParallelism: int): (p: int)
    ensures (p >= 1 <==> maxParallelism >= 1) && p <= maxParallelism && (maxParallelism >= 0 ==> p >= 0)
    ensures p > 1 ==> p * EffectiveSize(chunkSize) <= length
    ensures p < maxParallelism ==> (p + 1) * EffectiveSize(chunkSize) > length
  {
    AtMost(length, EffectiveSize(chunkSize));
    var chunks := if length / EffectiveSize(chunkSize) > 1 then length / EffectiveSize(chunkSize) else 1;
    if maxParallelism < chunks then maxParallelism else chunks
  }

  /** All chunks but the last are of the full size, and none is empty. */
  ghost predicate FullButLast<T>(chunks: seq<seq<T>>, size: nat) {
    && (forall i :: 0 <= i < |chunks| ==> 0 < |chunks[i]| <= size)
    && (forall i :: 0 <= i < |chunks| - 1 ==> |chunks[i]| == size)
  }

  /** The producer of a chunked fan-out: the chunks that it sends are the input, cut. */
  method SplitIntoChunks<T>(input: seq<T>, chunkSize: int) returns (chunks: seq<seq<T>>)
    ensures Flatten(chunks) == input && FullButLast(chunks, EffectiveSize(chunkSize))
  {
    var size := if chunkSize <= 0 then 1 else chunkSize;
    chunks := [];
    var i := 0;
    while i < |input|
      invariant 0 <= i && Flatten(chunks) == input[..if i < |input| then i else |input|]
      invariant FullButLast(chunks, size) && (i < |input| ==> forall j :: 0 <= j < |chunks| ==> |chunks[j]| == size)
      decreases |input| - i
    {
      var end := if i + size < |input| then i + size else |input|;
      assert (chunks + [input[i..end]])[..|chunks|] == chunks;
      assert input[..i] + input[i..end] == input[..end];
      chunks := chunks + [input[i..end]];
      i := i + size;
    }
  }

  /** The order in which a worker goes through the map it made of a chunk. */
  ghost predicate IsProducts<T(!new), U(!new)>(out: seq<(T, U)>, products: map<T, U>, pass: U -> bool) {
    && (forall i, j :: 0 <= i < j < |out| ==> out[i].0 != out[j].0)
    && forall x :: x in out <==> x.0 in products && products[x.0] == x.1 && pass(x.1)
  }

  /** FanoutChunksToMap, when the products of different chunks agree, returns their filtered union. */
  lemma ChunksReturnUnion<T(!new), U(!new)>(chunks: seq<seq<T>>, p: nat, worker: seq<T> -> map<T, U>, pass: U -> bool,
                                outs: seq<seq<(T, U)>>, run: seq<F.State<(T, U)>>, steps: seq<F.Step>, k: T, v: U)
    requires |outs| == |chunks| && forall i :: 0 <= i < |chunks| ==> IsProducts(outs[i], worker(chunks[i]), pass)
    requires forall i, j, t :: 0 <= i < |chunks| && 0 <= j < |chunks|
                               && t in worker(chunks[i]) && t in worker(chunks[j]) ==>
               worker(chunks[i])[t] == worker(chunks[j])[t]
    requires F.IsRun(outs, p, run, steps) && run[|steps|].returned
    ensures var m := ToMap(run[|steps|].result);
      (k in m && m[k] == v) <==>
      exists i :: 0 <= i < |chunks| && k in worker(chunks[i]) && worker(chunks[i])[k] == v && pass(v)
  {
    var result := run[|steps|].result;
    F.ReturnsAllOutputs(outs, p, run, steps);
    SameMembers(result, Flatten(outs));
    FlattenHolds(outs);
    forall x, y | x in result && y in result && x.0 == y.0 ensures x.1 == y.1 {
      var i :| 0 <= i < |outs| && x in outs[i];
      var j :| 0 <= j < |outs| && y in outs[j];
      assert IsProducts(outs[i], worker(chunks[i]), pass) && IsProducts(outs[j], worker(chunks[j]), pass);
    }
    ToMapHolds(result);
    if i :| 0 <= i < |chunks| && k in worker(chunks[i]) && worker(chunks[i])[k] == v && pass(v) {
      assert IsProducts(outs[i], worker(chunks[i]), pass);
      assert (k, v) in outs[i];
    }
    if (k, v) in result {
      var i :| 0 <= i < |outs| && (k, v) in outs[i];
      assert IsProducts(outs[i], worker(chunks[i]), pass);
    }
  }

  lemma {:induction false} NoChunks<T>(chunks: seq<seq<T>>, size: nat)
    requires FullButLast(chunks, size)
    ensures Flatten(chunks) == [] <==> chunks == []
  {
    if chunks != [] {
      var n := |chunks| - 1;
      assert Flatten(chunks) == Flatten(chunks[..n]) + chunks[n] && |chunks[n]| > 0;
    }
  }

  /** A schedule of a chunked fan-out that cannot go on has returned exactly when a worker is allowed or the input is
      empty. A negative maximum does not get that far. */
  lemma ChunkedEndsReturned<T, U>(input: seq<T>, chunkSize: int, maxParallelism: int, chunks: seq<seq<T>>,
                                  outs: seq<seq<U>>, run: seq<F.State<U>>, steps: seq<F.Step>)
    requires Flatten(chunks) == input && FullButLast(chunks, EffectiveSize(chunkSize)) && |outs| == |chunks|
    requires maxParallelism >= 0
    requires F.IsRun(outs, Parallelism(|input|, chunkSize, maxParallelism), run, steps)
    requires forall e :: !F.Enabled(outs, Parallelism(|input|, chunkSize, maxParallelism), run[|steps|], e)
    ensures run[|steps|].returned <==> maxParallelism >= 1 || input == []
  {
    NoChunks(chunks, EffectiveSize(chunkSize));
    F.EndsReturned(outs, Parallelism(|input|, chunkSize, maxParallelism), run, steps);
  }
}
