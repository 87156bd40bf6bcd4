/** Spans, and the counters that the collector keeps about the spans of a trace (types/event.go).
    Counters are 32 bits wide in the program and wrap around. */
module Spans {
  type Time = int

  const WIDTH32: nat := 0x1_0000_0000
  const WIDTH64: nat := 0x1_0000_0000_0000_0000

  type u32 = n: nat | n < WIDTH32

  function Wrap32(n: nat): u32 { n % WIDTH32 }

  function Inc32(n: u32): u32 { if n + 1 == WIDTH32 then 0 else n + 1 }

  lemma Inc32Wraps(n: nat)
    ensures Wrap32(n + 1) == Inc32(Wrap32(n))
  {
  }

  datatype Annotation = SpanEvent | Link | Plain

  /** A span as received; id tells spans apart. */
  datatype Span = Span(id: nat, traceId: string, isRoot: bool, annotation: Annotation, sampleRate: nat, dataSize: nat)

  datatype Counts = Counts(spans: u32, events: u32, links: u32)
  {
    function Plus(a: Annotation): Counts {
      match a
      case SpanEvent => this.(events := Inc32(events))
      case Link => this.(links := Inc32(links))
      case Plain => this.(spans := Inc32(spans))
    }

    /** The sum in 32-bit arithmetic. */
    function Total(): u32 {
      var t := spans + events + links;
      if t >= 2 * WIDTH32 then t - 2 * WIDTH32 else if t >= WIDTH32 then t - WIDTH32 else t
    }
  }

  lemma PlusTotal(c: Counts, a: Annotation)
    ensures c.Plus(a).Total() == Inc32(c.Total())
  {
  }

  const ZERO := Counts(0, 0, 0)

  function CountsOf(spans: seq<Span>): Counts {
    if spans == [] then ZERO else CountsOf(spans[..|spans| - 1]).Plus(spans[|spans| - 1].annotation)
  }

  /** How many of the spans have the annotation. */
  ghost function NumberOf(spans: seq<Span>, a: Annotation): nat {
    |set i | 0 <= i < |spans| && spans[i].annotation == a|
  }

  lemma NumberSnoc(spans: seq<Span>, sp: Span, a: Annotation)
    ensures NumberOf(spans + [sp], a) == NumberOf(spans, a) + if sp.annotation == a then 1 else 0
  {
    var n, more := |spans|, spans + [sp];
    var before := set i | 0 <= i < n && spans[i].annotation == a;
    var after := set i | 0 <= i < n + 1 && more[i].annotation == a;
    assert after == if sp.annotation == a then before + {n} else before;
  }

  /** Each sub-count is the number of the spans of its kind. */
  lemma {:induction false} CountsAre(spans: seq<Span>)
    ensures CountsOf(spans).spans == NumberOf(spans, Plain) % 0x1_0000_0000
    ensures CountsOf(spans).events == NumberOf(spans, SpanEvent) % 0x1_0000_0000
    ensures CountsOf(spans).links == NumberOf(spans, Link) % 0x1_0000_0000
  {
    if spans != [] {
      var n := |spans| - 1;
      CountsAre(spans[..n]);
      assert spans == spans[..n] + [spans[n]];
      forall a ensures NumberOf(spans, a) == NumberOf(spans[..n], a) + if spans[n].annotation == a then 1 else 0 {
        NumberSnoc(spans[..n], spans[n], a);
      }
      hide NumberOf;
      forall a {
        Inc32Wraps(NumberOf(spans[..n], a));
      }
    }
  }

  /** The three sub-counts add up to the number of spans. */
  lemma {:induction false} CountsAddUp(spans: seq<Span>)
    ensures CountsOf(spans).Total() == Wrap32(|spans|)
  {
    if spans != [] {
      CountsAddUp(spans[..|spans| - 1]);
      Inc32Wraps(|spans| - 1);
    }
  }
}

/** What the cache of sampling decisions remembers, as values: the specification of CuckooSentCache. */
module Decisions {
  import opened Options
  import opened Spans
  import opened Recency
  import opened DropMemory

  const RECENT_TTL := 3_000_000_000

  /** The record of a kept trace. The rate is stored in 32 bits. */
  datatype KeptRecord = KeptRecord(rate: u32, total: u32, counts: Counts)
  {
    function Counted(a: Annotation): KeptRecord {
      this.(total := Inc32(total), counts := counts.Plus(a))
    }
  }

  function NewRecord(rate: nat, spanCount: nat, counts: Counts): KeptRecord {
    KeptRecord(Wrap32(rate), Wrap32(spanCount), counts)
  }

  datatype Answer = Unknown | Dropped | Kept(record: KeptRecord)

  datatype Book = Book(kept: Order<string, KeptRecord>, keptSize: int, drop: Memory, recent: map<string, Time>)
  {
    ghost predicate Valid() {
      && DistinctKeys(kept) && 0 < keptSize && |kept| <= keptSize
      && drop.Valid()
    }

    predicate RecentlyDropped(id: string, now: Time) {
      id in recent && recent[id] > now
    }

    ghost function Recorded(id: string, keep: bool, record: KeptRecord, now: Time): Book {
      if keep then this.(kept := Added(kept, keptSize, id, record))
      else this.(recent := recent[id := now + RECENT_TTL], drop := drop.Queued(id))
    }

    /** The answer about the trace of a span, and the memory after asking: a drop is refreshed, a kept
        record becomes the most recent one and counts the span. */
    ghost function Asked(id: string, a: Annotation, now: Time, collides: bool): (Answer, Book) {
      if RecentlyDropped(id, now) || id in drop.current || collides then
        (Dropped, this.(recent := recent[id := now + RECENT_TTL]))
      else if Has(kept, id) then
        var record := Lookup(kept, id).Counted(a);
        (Kept(record), this.(kept := [(id, record)] + Without(kept, id)))
      else
        (Unknown, this)
    }

    /** A size that is not positive is refused; otherwise the newest records stay, in their order. */
    function Resized(size: int): Book {
      if size <= 0 then this else this.(kept := Truncate(kept, size), keptSize := size)
    }

    function CleanedUp(now: Time): Book {
      this.(recent := map id | id in recent && recent[id] >= now :: recent[id])
    }
  }

  /** The total of a kept record stays the sum of its sub-counts. */
  ghost predicate Balanced(record: KeptRecord) {
    record.total == record.counts.Total()
  }

  lemma NewRecordIsBalanced(rate: nat, spans: seq<Span>)
    ensures Balanced(NewRecord(rate, |spans|, CountsOf(spans)))
  {
    CountsAddUp(spans);
  }

  /** Cleaning up forgets no drop that could still be answered, and leaves none that could not. */
  lemma CleanUpForgetsNothing(b: Book, now: Time, id: string, later: Time)
    requires now <= later
    ensures b.CleanedUp(now).RecentlyDropped(id, later) == b.RecentlyDropped(id, later)
    ensures id in b.CleanedUp(now).recent ==> b.CleanedUp(now).recent[id] >= now
  {
  }
}

/** collect/cache/cuckooSentCache.go. */
module SentCache {
  import opened Options
  import opened Spans
  import opened Recency
  import opened Decisions
  import Lru
  import opened DropMemory
  import opened DropFilter

  lemma TouchThenWrite<K, V>(c: Order<K, V>, k: K, v: V)
    requires Has(c, k)
    ensures |Touch(c, k)| > 0 && Touch(c, k)[0].0 == k
    ensures Touch(c, k)[0 := (k, v)] == [(k, v)] + Without(c, k)
  {
    assert Touch(c, k) == [c[IndexOf(c, k)]] + Without(c, k);
  }

  /** The old cache after i of its n newest records have been read, oldest first. */
  ghost function ReadBack<K, V>(c: Order<K, V>, n: nat, i: nat): Order<K, V>
    requires i <= n <= |c|
  {
    c[n - i..n] + c[..n - i] + c[n..]
  }

  ghost function Copied<K, V>(c: Order<K, V>, n: nat, i: nat): Order<K, V>
    requires i <= n <= |c|
  {
    c[n - i..n]
  }

  lemma ReadBackEnds<K, V>(c: Order<K, V>, n: nat)
    requires n <= |c|
    ensures ReadBack(c, n, 0) == c == ReadBack(c, n, n)
    ensures Copied(c, n, 0) == [] && Copied(c, n, n) == c[..n]
  {
  }

  lemma ReadBackAt<K, V>(c: Order<K, V>, n: nat, i: nat)
    requires DistinctKeys(c) && i < n <= |c|
    ensures var d, e := ReadBack(c, n, i), c[n - 1 - i];
      d[n - 1] == e && forall j :: 0 <= j < |d| && j != n - 1 ==> d[j].0 != e.0
  {
    var d := ReadBack(c, n, i);
    assert forall j :: 0 <= j < i ==> d[j] == c[n - i + j];
    assert forall j :: i <= j < n ==> d[j] == c[j - i];
    assert forall j :: n <= j < |d| ==> d[j] == c[j];
  }

  lemma ReadBackMoves<K, V>(c: Order<K, V>, n: nat, i: nat)
    requires i < n <= |c|
    ensures [c[n - 1 - i]] + Cut(ReadBack(c, n, i), n - 1) == ReadBack(c, n, i + 1)
  {
  }

  lemma ReadBackStep<K, V>(c: Order<K, V>, n: nat, i: nat, size: int)
    requires DistinctKeys(c) && i < n <= |c| && n <= size
    ensures var d, e := ReadBack(c, n, i), c[n - 1 - i];
      && Has(d, e.0) && Lookup(d, e.0) == e.1 && Touch(d, e.0) == ReadBack(c, n, i + 1)
      && Added(Copied(c, n, i), size, e.0, e.1) == Copied(c, n, i + 1)
  {
    var d, e := ReadBack(c, n, i), c[n - 1 - i];
    ReadBackAt(c, n, i);
    ReadBackMoves(c, n, i);
    CopiedStep(c, n, i, size);
    hide ReadBack, Copied, DistinctKeys, Added;
    assert e == (e.0, e.1);
  }

  lemma CopiedStep<K, V>(c: Order<K, V>, n: nat, i: nat, size: int)
    requires DistinctKeys(c) && i < n <= |c| && n <= size
    ensures var e := c[n - 1 - i]; Added(Copied(c, n, i), size, e.0, e.1) == Copied(c, n, i + 1)
  {
    var e, w := c[n - 1 - i], Copied(c, n, i);
    assert forall j :: 0 <= j < i ==> w[j] == c[n - i + j];
    assert !Has(w, e.0);
    assert [e] + w == Copied(c, n, i + 1) && e == (e.0, e.1);
  }

  class CuckooSentCache {
    var kept: Lru.LruCache<string, KeptRecord>
    const dropped: CuckooTraceChecker
    var recent: map<string, Time>

    ghost var Repr: set<object>

    ghost predicate Valid()
      reads this, Repr
    {
      && this in Repr && kept in Repr && kept.Repr <= Repr && dropped in Repr && dropped.Repr <= Repr
      && this !in kept.Repr && this !in dropped.Repr && kept.Repr !! dropped.Repr
      && kept.Valid() && dropped.Valid() && kept.size > 0
    }

    ghost function View(): Book
      requires Valid()
      reads this, Repr
    {
      Book(kept.contents, kept.size, dropped.View(), recent)
    }

    lemma ViewIsValid()
      requires Valid()
      ensures View().Valid()
    {
      kept.KeysAreDistinct();
    }

    constructor (keptSize: nat, droppedSize: nat)
      requires keptSize > 0
      ensures Valid() && fresh(Repr)
      ensures View() == Book([], keptSize, Memory({}, None, []), map[])
    {
      kept := new Lru.LruCache<string, KeptRecord>(keptSize);
      dropped := new CuckooTraceChecker(droppedSize);
      recent := map[];
      new;
      Repr := {this} + kept.Repr + dropped.Repr;
    }

    method Record(id: string, rate: nat, spanCount: nat, counts: Counts, keep: bool, now: Time)
      requires Valid()
      modifies Repr
      ensures Valid() && fresh(Repr - old(Repr))
      ensures View() == old(View()).Recorded(id, keep, NewRecord(rate, spanCount, counts), now)
    {
      if keep {
        var _ := kept.Add(id, NewRecord(rate, spanCount, counts));
        Repr := Repr + kept.Repr;
        return;
      }
      recent := recent[id := now + RECENT_TTL];
      dropped.Add(id);
    }

    /** Asks for the decision about the trace of a span, and counts the span if the trace was kept. */
    method CheckSpan(id: string, a: Annotation, now: Time, collides: bool) returns (answer: Answer)
      requires Valid()
      modifies Repr
      ensures Valid() && fresh(Repr - old(Repr))
      ensures (answer, View()) == old(View()).Asked(id, a, now, collides)
    {
      if id in recent && recent[id] > now {
        recent := recent[id := now + RECENT_TTL];
        return Dropped;
      }
      var inFilter := dropped.Check(id, collides);
      if inFilter {
        recent := recent[id := now + RECENT_TTL];
        return Dropped;
      }
      var record, found := CountKept(id, a);
      return if found then Kept(record) else Unknown;
    }

    method CountKept(id: string, a: Annotation) returns (record: KeptRecord, found: bool)
      requires Valid()
      modifies kept.Repr
      ensures Valid() && kept.Repr == old(kept.Repr) && kept.size == old(kept.size)
      ensures found == Has(old(kept.contents), id)
      ensures found ==> record == Lookup(old(kept.contents), id).Counted(a)
                        && kept.contents == [(id, record)] + Without(old(kept.contents), id)
      ensures !found ==> kept.contents == old(kept.contents)
    {
      ghost var c := kept.contents;
      record, found := kept.Get(id);
      if found {
        record := record.Counted(a);
        TouchThenWrite(c, id, record);
        kept.WriteThrough(id, record);
      }
    }

    /** Fails on a size that is not positive. Copies the newest records, oldest first. */
    method Resize(keptSize: int, droppedSize: nat) returns (ok: bool)
      requires Valid()
      modifies Repr
      ensures Valid() && fresh(Repr - old(Repr))
      ensures ok == (keptSize > 0) && View() == old(View()).Resized(keptSize)
    {
      if keptSize <= 0 {
        return false;
      }
      kept := CopyNewest(keptSize);
      Repr := Repr + kept.Repr;
      dropped.SetNextCapacity(droppedSize);
      ok := true;
    }

    method CopyNewest(keptSize: nat) returns (stc: Lru.LruCache<string, KeptRecord>)
      requires Valid() && keptSize > 0
      modifies kept.Repr
      ensures kept.Valid() && kept.Repr == old(kept.Repr) && kept.size == old(kept.size)
      ensures kept.contents == old(kept.contents)
      ensures stc.Valid() && fresh(stc.Repr) && stc.size == keptSize
      ensures stc.contents == Truncate(old(kept.contents), keptSize)
    {
      var keys := kept.Keys();
      if |keys| > keptSize {
        keys := keys[|keys| - keptSize..];
      }
      kept.KeysAreDistinct();
      stc := CopyKeys(kept, keptSize, keys, kept.contents);
    }

    static method CopyKeys(from: Lru.LruCache<string, KeptRecord>, size: nat, keys: seq<string>,
                           ghost c: Order<string, KeptRecord>)
      returns (to: Lru.LruCache<string, KeptRecord>)
      requires from.Valid() && from.contents == c && DistinctKeys(c) && |keys| <= |c| && |keys| <= size
      requires forall i :: 0 <= i < |keys| ==> keys[i] == c[|keys| - 1 - i].0
      modifies from.Repr
      ensures from.Valid() && from.Repr == old(from.Repr) && from.size == old(from.size) && from.contents == c
      ensures to.Valid() && fresh(to.Repr) && to.size == size && to.contents == c[..|keys|]
    {
      hide Lru.LruCache.Valid, ReadBack, Copied, DistinctKeys;
      to := new Lru.LruCache<string, KeptRecord>(size);
      ReadBackEnds(c, |keys|);
      for i := 0 to |keys|
        invariant from.Valid() && from.Repr == old(from.Repr) && from.size == old(from.size)
        invariant to.Valid() && fresh(to.Repr) && to.size == size
        invariant from.contents == ReadBack(c, |keys|, i) && to.contents == Copied(c, |keys|, i)
      {
        CopyOne(from, to, keys[i], c, |keys|, i);
      }
    }

    static method CopyOne(from: Lru.LruCache<string, KeptRecord>, to: Lru.LruCache<string, KeptRecord>, key: string,
                          ghost c: Order<string, KeptRecord>, ghost n: nat, ghost i: nat)
      requires from.Valid() && to.Valid() && from.Repr !! to.Repr
      requires DistinctKeys(c) && i < n <= |c| && n <= to.size && key == c[n - 1 - i].0
      requires from.contents == ReadBack(c, n, i) && to.contents == Copied(c, n, i)
      modifies from.Repr, to.Repr
      ensures from.Valid() && from.Repr == old(from.Repr) && from.size == old(from.size)
      ensures to.Valid() && fresh(to.Repr - old(to.Repr)) && to.size == old(to.size)
      ensures from.contents == ReadBack(c, n, i + 1) && to.contents == Copied(c, n, i + 1)
    {
      hide ReadBack, Copied, DistinctKeys;
      ReadBackStep(c, n, i, to.size);
      var v, found := from.Get(key);
      if found {
        var _ := to.Add(key, v);
      }
    }

    /** The goroutine that empties the queue in front of the filters. */
    method Drain(budget: nat)
      requires Valid()
      modifies Repr
      ensures Valid() && fresh(Repr - old(Repr))
      ensures var b := old(View()); View() == b.(drop := b.drop.Drained(Within(budget, b.drop)))
    {
      var _ := dropped.Drain(budget);
    }

    /** The three sections of maintenance after its drain. */
    method StartFuture(load: real)
      requires Valid()
      modifies Repr
      ensures Valid() && fresh(Repr - old(Repr))
      ensures var b := old(View()); View() == b.(drop := b.drop.Started(load))
    {
      dropped.StartFuture(load);
      Repr := Repr + dropped.Repr;
    }

    method Rotate(load: real)
      requires Valid() && (load > 0.99 ==> View().drop.future.Some?)
      modifies Repr
      ensures Valid() && fresh(Repr - old(Repr))
      ensures var b := old(View()); View() == b.(drop := b.drop.Rotated(load))
    {
      dropped.Rotate(load);
      Repr := Repr + dropped.Repr;
    }

    method CleanUp(now: Time)
      requires Valid()
      modifies this`recent
      ensures Valid() && View() == old(View()).CleanedUp(now)
    {
      recent := map id | id in recent && recent[id] >= now :: recent[id];
    }

    method Maintain(budget: nat, load: real, now: Time)
      requires Valid()
      modifies Repr
      ensures Valid() && fresh(Repr - old(Repr))
      ensures var b := old(View()); View() == b.(drop := b.drop.Maintained(Within(budget, b.drop), load)).CleanedUp(now)
    {
      hide Memory.Drained, Memory.Started, Memory.Rotated;
      dropped.Maintain(budget, load);
      Repr := Repr + dropped.Repr;
      recent := map id | id in recent && recent[id] >= now :: recent[id];
    }
  }

  /** How many ids a drain takes that has time for `budget` of them. */
  function Within(budget: nat, m: Memory): (n: nat)
    ensures n <= |m.queue|
  {
    if budget < |m.queue| then budget else |m.queue|
  }
}
