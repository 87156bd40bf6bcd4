/** The specification of the memory of dropped trace ids: what is in the two filters and in the queue
    in front of them. */
module DropMemory {
  import opened Options

  const ADD_QUEUE_DEPTH := 1000

  datatype Memory = Memory(current: set<string>, future: Option<set<string>>, queue: seq<string>)
  {
    ghost predicate Valid() {
      && (future.Some? ==> future.value <= current)
      && |queue| <= ADD_QUEUE_DEPTH
    }

    /** Ids that the next rotation keeps. */
    function Survivors(): set<string> {
      if future.Some? then future.value else {}
    }

    /** A full queue drops the id on the floor. */
    function Queued(id: string): Memory {
      if |queue| < ADD_QUEUE_DEPTH then this.(queue := queue + [id]) else this
    }

    /** The first n ids leave the queue for every filter that exists. */
    function Drained(n: nat): Memory
      requires n <= |queue|
    {
      var ids := Elements(queue[..n]);
      Memory(current + ids, if future.Some? then Some(future.value + ids) else None, queue[n..])
    }

    /** Past half load the future filter starts. */
    function Started(load: real): Memory {
      if future.None? && load > 0.5 then this.(future := Some({})) else this
    }

    /** Past 99% the future filter replaces the current one. */
    function Rotated(load: real): Memory
      requires load > 0.99 ==> future.Some?
    {
      if load > 0.99 then this.(current := future.value, future := Some({})) else this
    }

    /** Maintenance, when nothing comes between its parts. */
    function Maintained(n: nat, load: real): Memory
      requires n <= |queue|
    {
      Drained(n).Started(load).Rotated(load)
    }
  }

  lemma DrainedZero(m: Memory)
    ensures m.Drained(0) == m
  {
    assert Elements(m.queue[..0]) == {} && m.current + {} == m.current;
    assert m.future.Some? ==> m.future.value + {} == m.future.value;
  }

  lemma DrainedSnoc(m: Memory, n: nat)
    requires n < |m.queue|
    ensures var d, id := m.Drained(n), m.queue[n];
      m.Drained(n + 1)
      == Memory(d.current + {id}, if d.future.Some? then Some(d.future.value + {id}) else None, d.queue[1..])
  {
    assert m.queue[..n + 1] == m.queue[..n] + [m.queue[n]];
    var done, id := Elements(m.queue[..n]), m.queue[n];
    assert Elements(m.queue[..n + 1]) == done + {id};
    assert m.current + (done + {id}) == m.current + done + {id};
    assert m.future.Some? ==> m.future.value + (done + {id}) == m.future.value + done + {id};
    assert m.queue[n + 1..] == m.queue[n..][1..];
  }

  /** One critical section of the worker, of the goroutine that drains the queue, or of maintenance, which drains,
      starts the future filter and rotates, with the load that it read, in three separate sections. */
  datatype Event = Add(id: string) | Drain(n: nat) | Start(load: real) | Rotate(load: real)

  predicate Next(m: Memory, e: Event, m': Memory) {
    match e
    case Add(id) => m' == m.Queued(id)
    case Drain(n) => n <= |m.queue| && m' == m.Drained(n)
    case Start(load) => m' == m.Started(load)
    case Rotate(load) => (load > 0.99 ==> m.future.Some?) && m' == m.Rotated(load)
  }

  predicate IsRun(run: seq<Memory>, events: seq<Event>) {
    |run| == |events| + 1 && forall i :: 0 <= i < |events| ==> Next(run[i], events[i], run[i + 1])
  }

  predicate Rotates(e: Event) {
    e.Rotate? && e.load > 0.99
  }

  /** An id of the current filter is still there after any step, except that a rotation keeps exactly
      the ids of the future filter. */
  lemma StepKeepsExactly(m: Memory, e: Event, m': Memory, id: string)
    requires m.Valid() && Next(m, e, m')
    ensures m'.Valid()
    ensures id in m.current && !Rotates(e) ==> id in m'.current
    ensures Rotates(e) ==> (id in m'.current <==> id in m.Survivors())
    ensures id in m.Survivors() && !Rotates(e) ==> id in m'.Survivors()
  {
  }

  /** Maintenance never finds the future filter gone when it comes to rotate: once started, it is there after every
      other section. */
  lemma {:induction false} StartedIsReady(run: seq<Memory>, events: seq<Event>, load: real)
    requires IsRun(run, events) && |events| > 0 && events[0] == Start(load)
    ensures load > 0.99 ==> run[|events|].future.Some?
  {
    for i := 0 to |events|
      invariant i > 0 && load > 0.99 ==> run[i].future.Some?
    {
      assert Next(run[i], events[i], run[i + 1]);
    }
  }

  /** Every run keeps the future filter inside the current one. */
  lemma {:induction false} RunIsValid(run: seq<Memory>, events: seq<Event>)
    requires IsRun(run, events) && run[0].Valid()
    ensures forall i :: 0 <= i < |run| ==> run[i].Valid()
  {
    if |events| > 0 {
      RunIsValid(run[1..], events[1..]);
      StepKeepsExactly(run[0], events[0], run[1], "");
      assert forall i :: 1 <= i < |run| ==> run[i] == run[1..][i - 1];
    }
  }

  ghost function Rotations(events: seq<Event>): nat {
    if events == [] then 0 else (if Rotates(events[0]) then 1 else 0) + Rotations(events[1..])
  }

  /** An id drained while a future filter exists is recognised through the next rotation, however many
      other steps come before and after it; one drained without a future filter until the next rotation. */
  lemma {:induction false} DrainedIdsOutliveOneRotation(run: seq<Memory>, events: seq<Event>, id: string)
    requires IsRun(run, events) && run[0].Valid()
    requires id in run[0].current
    requires Rotations(events) <= if id in run[0].Survivors() then 1 else 0
    ensures id in run[|events|].current
  {
    if |events| > 0 {
      StepKeepsExactly(run[0], events[0], run[1], id);
      DrainedIdsOutliveOneRotation(run[1..], events[1..], id);
    }
  }

  /** Once the current filter was found more than half full, an id that is drained is recognised through the next
      rotation. */
  lemma DrainedPastHalfLoad(run: seq<Memory>, events: seq<Event>, load: real, i: nat, id: string)
    requires IsRun(run, events) && run[0].Valid() && 0 < i < |events|
    requires events[0] == Start(load) && load > 0.5
    requires events[i].Drain? && events[i].n <= |run[i].queue| && id in run[i].queue[..events[i].n]
    requires Rotations(events[i + 1..]) <= 1
    ensures id in run[|events|].current
  {
    for k := 0 to i
      invariant run[k].Valid() && (k > 0 ==> run[k].future.Some?)
    {
      StepKeepsExactly(run[k], events[k], run[k + 1], id);
    }
    StepKeepsExactly(run[i], events[i], run[i + 1], id);
    assert Next(run[i], events[i], run[i + 1]);
    DrainedIdsOutliveOneRotation(run[i + 1..], events[i + 1..], id);
  }

  /** What a queued id needs to be recognised: to leave the queue, in a run without a rotation. */
  lemma {:induction false} QueuedIdsAreDrained(run: seq<Memory>, events: seq<Event>, id: string)
    requires IsRun(run, events) && run[0].Valid()
    requires id in run[0].queue || id in run[0].current
    requires Rotations(events) == 0
    ensures id in run[|events|].queue || id in run[|events|].current
  {
    if |events| > 0 {
      StepKeepsExactly(run[0], events[0], run[1], id);
      if events[0].Drain? {
        assert run[0].queue == run[0].queue[..events[0].n] + run[0].queue[events[0].n..];
      }
      QueuedIdsAreDrained(run[1..], events[1..], id);
    }
  }
}

/** collect/cache/cuckoo.go. A cuckoo filter is taken as a set without false negatives; a false positive
    is an input of the lookup, a load factor one of the maintenance. */
module DropFilter {
  import opened Options
  import opened DropMemory

  class Filter {
    var ids: set<string>
    const capacity: nat

    constructor (capacity: nat)
      ensures ids == {} && this.capacity == capacity
    {
      ids, this.capacity := {}, capacity;
    }

    method Insert(id: string)
      modifies this
      ensures ids == old(ids) + {id}
    {
      ids := ids + {id};
    }

    method Lookup(id: string, collides: bool) returns (found: bool)
      ensures found == (id in ids || collides)
    {
      found := id in ids || collides;
    }
  }

  class CuckooTraceChecker {
    var current: Filter
    var future: Filter?
    var capacity: nat
    var addch: seq<string>

    ghost var Repr: set<object>

    ghost predicate Valid()
      reads this, Repr
    {
      && this in Repr && current in Repr && (future != null ==> future in Repr && future != current)
      && View().Valid()
    }

    ghost function View(): Memory
      requires current in Repr && (future != null ==> future in Repr)
      reads this, Repr
    {
      Memory(current.ids, if future == null then None else Some(future.ids), addch)
    }

    constructor (capacity: nat)
      ensures Valid() && fresh(Repr) && View() == Memory({}, None, [])
    {
      this.capacity := capacity;
      current := new Filter(capacity);
      future, addch := null, [];
      new;
      Repr := {this, current};
    }

    method Add(id: string)
      requires Valid()
      modifies this`addch
      ensures Valid() && View() == old(View()).Queued(id)
    {
      if |addch| < ADD_QUEUE_DEPTH {
        addch := addch + [id];
      }
    }

    /** Moves ids from the queue to the filters until it is empty or the lock has been held too long,
        after `budget` of them. */
    method Drain(budget: nat) returns (n: nat)
      requires Valid()
      modifies Repr
      ensures n == if budget < |old(addch)| then budget else |old(addch)|
      ensures Valid() && View() == old(View()).Drained(n)
      ensures current == old(current) && future == old(future) && capacity == old(capacity) && Repr == old(Repr)
    {
      var count := |addch|;
      n := 0;
      ghost var was := View();
      DrainedZero(was);
      while n < count && n < budget
        invariant n <= count == |was.queue| && n <= budget
        invariant current == old(current) && future == old(future) && capacity == old(capacity)
        invariant Repr == old(Repr) && View() == was.Drained(n)
      {
        var id := addch[0];
        addch := addch[1..];
        current.Insert(id);
        if future != null {
          future.Insert(id);
        }
        DrainedSnoc(was, n);
        n := n + 1;
      }
    }

    method Check(id: string, collides: bool) returns (found: bool)
      requires Valid()
      ensures found == (id in View().current || collides)
    {
      found := current.Lookup(id, collides);
    }

    method StartFuture(load: real)
      requires Valid()
      modifies this
      ensures Valid() && fresh(Repr - old(Repr)) && capacity == old(capacity)
      ensures View() == old(View()).Started(load)
    {
      if future == null && load > 0.5 {
        future := new Filter(capacity);
        Repr := Repr + {future};
      }
    }

    method Rotate(load: real)
      requires Valid() && (load > 0.99 ==> future != null)
      modifies this
      ensures Valid() && fresh(Repr - old(Repr)) && capacity == old(capacity)
      ensures View() == old(View()).Rotated(load)
    {
      if load > 0.99 {
        current := future;
        future := new Filter(capacity);
        Repr := Repr + {future};
      }
    }

    /** The load is that of the current filter after the drain. */
    method Maintain(budget: nat, load: real)
      requires Valid()
      modifies Repr
      ensures Valid() && fresh(Repr - old(Repr)) && capacity == old(capacity)
      ensures View() == old(View()).Maintained(if budget < |old(addch)| then budget else |old(addch)|, load)
    {
      var _ := Drain(budget);
      StartFuture(load);
      Rotate(load);
    }

    method SetNextCapacity(capacity: nat)
      requires Valid()
      modifies this`capacity
      ensures Valid() && this.capacity == capacity && View() == old(View())
    {
      this.capacity := capacity;
    }
  }
}
