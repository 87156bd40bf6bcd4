/** Events and the bytes of a request body. Times, rates and payloads come serialized: the encoders of the
    MessagePack library are not part of this model. */
module Packing {
  import opened Options
  import opened Msgpack

  /** Size limit of a request body. */
  const API_MAX_BATCH_SIZE := 5_000_000
  /** Size limit of one event in it. */
  const API_MAX_EVENT_SIZE := 1_000_000

  datatype Destination = Destination(apiHost: string, apiKey: string, dataset: string)

  /** data is None when the payload cannot be serialized. */
  datatype Event = Event(dest: Destination, time: seq<Byte>, sampleRate: seq<Byte>, data: Option<seq<Byte>>)

  /** A map of three fields, and the names of the fields. */
  const TIME_FIELD: seq<Byte> := [0x83, 0xa4, 0x74, 0x69, 0x6d, 0x65]
  const SAMPLERATE_FIELD: seq<Byte> := [0xaa, 0x73, 0x61, 0x6d, 0x70, 0x6c, 0x65, 0x72, 0x61, 0x74, 0x65]
  const DATA_FIELD: seq<Byte> := [0xa4, 0x64, 0x61, 0x74, 0x61]

  function Encoding(ev: Event): Option<seq<Byte>> {
    match ev.data
    case None => None
    case Some(data) => Some(TIME_FIELD + ev.time + SAMPLERATE_FIELD + ev.sampleRate + DATA_FIELD + data)
  }

  /** Events that the API takes at all. */
  predicate Acceptable(ev: Event) {
    Encoding(ev).Some? && |Encoding(ev).value| <= API_MAX_EVENT_SIZE
  }

  function Accepted(events: seq<Event>): seq<Event> {
    if events == [] then []
    else
      var rest := Accepted(events[..|events| - 1]);
      if Acceptable(events[|events| - 1]) then rest + [events[|events| - 1]] else rest
  }

  function Body(events: seq<Event>): seq<Byte> {
    if events == [] then []
    else
      Body(events[..|events| - 1]) + match Encoding(events[|events| - 1]) case Some(bytes) => bytes case None => []
  }

  lemma {:induction false} AcceptedConcat(a: seq<Event>, b: seq<Event>)
    ensures Accepted(a + b) == Accepted(a) + Accepted(b)
  {
    if b == [] {
      assert a + b == a;
    } else {
      var n := |b| - 1;
      assert (a + b)[..|a| + n] == a + b[..n];
      AcceptedConcat(a, b[..n]);
    }
  }

  lemma {:induction false} AcceptedAreAcceptable(events: seq<Event>)
    ensures forall ev :: ev in Accepted(events) <==> ev in events && Acceptable(ev)
    ensures forall ev :: Acceptable(ev) <==> Encoding(ev).Some? && |Encoding(ev).value| <= 1_000_000
  {
    if events != [] {
      var n := |events| - 1;
      AcceptedAreAcceptable(events[..n]);
      assert events == events[..n] + [events[n]];
    }
  }

  /** No event is free, so that a body has fewer events than bytes. */
  lemma {:induction false} BodyCounts(events: seq<Event>)
    requires forall ev :: ev in events ==> Encoding(ev).Some?
    ensures |events| <= |Body(events)|
  {
    if events != [] {
      var n := |events| - 1;
      BodyCounts(events[..n]);
      assert events[n] in events;
    }
  }

  lemma BodySnoc(events: seq<Event>, ev: Event)
    ensures Encoding(ev).Some? ==> Body(events + [ev]) == Body(events) + Encoding(ev).value
    ensures Accepted(events + [ev]) == if Acceptable(ev) then Accepted(events) + [ev] else Accepted(events)
  {
    assert (events + [ev])[..|events|] == events;
  }

  /** The bytes of a name in ASCII. */
  function Ascii(name: string): seq<Byte>
    requires forall i :: 0 <= i < |name| ==> name[i] as int < 128
  {
    if name == [] then []
    else
      var first: Byte := name[0] as int;
      [first] + Ascii(name[1..])
  }

  /** Reads n fields with their names; size tells how long the value in front is. */
  function ReadFields(b: seq<Byte>, n: nat, size: seq<Byte> -> nat): Option<seq<(seq<Byte>, seq<Byte>)>> {
    if n == 0 then if b == [] then Some([]) else None
    else match ReadHeader(StrFormat, b)
      case None => None
      case Some((k, rest)) =>
        if |rest| < k || |rest| < k + size(rest[k..]) then None
        else
          var end := k + size(rest[k..]);
          match ReadFields(rest[end..], n - 1, size)
          case None => None
          case Some(fields) => Some([(rest[..k], rest[k..end])] + fields)
  }

  lemma FieldReadsBack(b: seq<Byte>, name: seq<Byte>, value: seq<Byte>, more: seq<Byte>, n: nat,
                       size: seq<Byte> -> nat)
    requires |name| < 32 && b == [0xa0 + |name|] + (name + (value + more)) && size(value + more) == |value|
    requires ReadFields(more, n, size).Some?
    ensures ReadFields(b, n + 1, size) == Some([(name, value)] + ReadFields(more, n, size).value)
  {
    hide *;
    var rest := name + (value + more);
    NameIsRead(name, rest);
    Slices(name, value, more);
    OneFieldRead(b, |name|, rest, n, size);
  }

  lemma OneFieldRead(b: seq<Byte>, k: nat, rest: seq<Byte>, n: nat, size: seq<Byte> -> nat)
    requires ReadHeader(StrFormat, b) == Some((k, rest)) && k <= |rest| && k + size(rest[k..]) <= |rest|
    requires ReadFields(rest[k + size(rest[k..])..], n, size).Some?
    ensures var end := k + size(rest[k..]);
      ReadFields(b, n + 1, size) == Some([(rest[..k], rest[k..end])] + ReadFields(rest[end..], n, size).value)
  {
    hide ReadHeader;
  }

  lemma NameIsRead(name: seq<Byte>, rest: seq<Byte>)
    requires |name| < 32
    ensures ReadHeader(StrFormat, [0xa0 + |name|] + rest) == Some((|name|, rest))
  {
    var b := [0xa0 + |name|] + rest;
    assert b[0] == 0xa0 + |name| && b[1..] == rest;
  }

  lemma Slices(a: seq<Byte>, b: seq<Byte>, c: seq<Byte>)
    ensures var s := a + (b + c);
      && |s| == |a| + |b| + |c| && s[..|a|] == a && s[|a|..] == b + c
      && s[|a|..|a| + |b|] == b && s[|a| + |b|..] == c
  {
  }

  /** A field: the header of its name, the name, the value, and what follows. */
  function Field(name: seq<Byte>, value: seq<Byte>, more: seq<Byte>): seq<Byte>
    requires |name| < 32
  {
    [0xa0 + |name|] + (name + (value + more))
  }

  lemma ThreeFields(a: seq<Byte>, x: seq<Byte>, b: seq<Byte>, y: seq<Byte>, c: seq<Byte>, z: seq<Byte>,
                    size: seq<Byte> -> nat)
    requires |a| < 32 && |b| < 32 && |c| < 32
    requires forall rest :: size(x + rest) == |x|
    requires forall rest :: size(y + rest) == |y|
    requires forall rest :: size(z + rest) == |z|
    ensures ReadFields(Field(a, x, Field(b, y, Field(c, z, []))), 3, size) == Some([(a, x), (b, y), (c, z)])
  {
    var third := Field(c, z, []);
    var second := Field(b, y, third);
    NoFields(size);
    FieldReadsBack(third, c, z, [], 0, size);
    FieldReadsBack(second, b, y, third, 1, size);
    FieldReadsBack(Field(a, x, second), a, x, second, 2, size);
    hide *;
    assert [(a, x)] + ([(b, y)] + ([(c, z)] + [])) == [(a, x), (b, y), (c, z)];
  }

  /** Whoever knows how long the values are reads the three fields of an event back by their names. */
  lemma EncodingReadsBack(ev: Event, size: seq<Byte> -> nat)
    requires ev.data.Some?
    requires forall rest :: size(ev.time + rest) == |ev.time|
    requires forall rest :: size(ev.sampleRate + rest) == |ev.sampleRate|
    requires forall rest :: size(ev.data.value + rest) == |ev.data.value|
    ensures Encoding(ev).Some? && ReadHeader(MapFormat, Encoding(ev).value).Some?
    ensures var (n, fields) := ReadHeader(MapFormat, Encoding(ev).value).value;
      n == 3 && ReadFields(fields, n, size) == Some([(Ascii("time"), ev.time), (Ascii("samplerate"), ev.sampleRate),
                                                     (Ascii("data"), ev.data.value)])
  {
    NamesAre();
    EncodingIs(ev);
    hide *;
    var a, b, c := Ascii("time"), Ascii("samplerate"), Ascii("data");
    MapOfThree(Field(a, ev.time, Field(b, ev.sampleRate, Field(c, ev.data.value, []))));
    ThreeFields(a, ev.time, b, ev.sampleRate, c, ev.data.value, size);
  }

  lemma EncodingIs(ev: Event)
    requires ev.data.Some?
    ensures |Ascii("time")| < 32 && |Ascii("samplerate")| < 32 && |Ascii("data")| < 32
    ensures Encoding(ev) == Some([0x83] + Field(Ascii("time"), ev.time,
                                                Field(Ascii("samplerate"), ev.sampleRate,
                                                      Field(Ascii("data"), ev.data.value, []))))
  {
    NamesAre();
    hide Ascii;
    var third := Field(Ascii("data"), ev.data.value, []);
    var second := Field(Ascii("samplerate"), ev.sampleRate, third);
    Named(0xa4, Ascii("data"), ev.data.value, []);
    Named(0xaa, Ascii("samplerate"), ev.sampleRate, third);
    Named(0xa4, Ascii("time"), ev.time, second);
    Front([0x83], [0xa4] + Ascii("time"), ev.time, second);
    Regroup(TIME_FIELD, ev.time, SAMPLERATE_FIELD, ev.sampleRate, DATA_FIELD, ev.data.value);
  }

  lemma Named(h: Byte, name: seq<Byte>, value: seq<Byte>, more: seq<Byte>)
    ensures [h] + (name + (value + more)) == (([h] + name) + value) + more
  {
  }

  lemma Front(a: seq<Byte>, b: seq<Byte>, c: seq<Byte>, d: seq<Byte>)
    ensures a + ((b + c) + d) == ((a + b) + c) + d
  {
  }

  lemma Regroup(a: seq<Byte>, b: seq<Byte>, c: seq<Byte>, d: seq<Byte>, e: seq<Byte>, f: seq<Byte>)
    ensures a + b + c + d + e + f == (a + b) + ((c + d) + ((e + f) + []))
  {
  }

  lemma NoFields(size: seq<Byte> -> nat)
    ensures ReadFields([], 0, size) == Some([])
  {
  }

  lemma MapOfThree(fields: seq<Byte>)
    ensures ReadHeader(MapFormat, [0x83] + fields) == Some((3, fields))
  {
  }

  lemma NamesAre()
    ensures |Ascii("time")| == 4 && |Ascii("samplerate")| == 10 && |Ascii("data")| == 4
    ensures [0x83] + ([0xa4] + Ascii("time")) == TIME_FIELD && [0xaa] + Ascii("samplerate") == SAMPLERATE_FIELD
    ensures [0xa4] + Ascii("data") == DATA_FIELD
  {
  }

  /** One request: where to, the events in it, and its body. */
  datatype Request = Request(dest: Destination, events: seq<Event>, body: seq<Byte>)

  function EventsOf(requests: seq<Request>): seq<Event> {
    if requests == [] then [] else EventsOf(requests[..|requests| - 1]) + requests[|requests| - 1].events
  }

  /** A request that the API can take: within its limit, and an array of as many events as its header says. */
  ghost predicate WellFormed(r: Request) {
    && r.events != [] && |r.body| <= API_MAX_BATCH_SIZE
    && (forall ev :: ev in r.events ==> Acceptable(ev))
    && ReadHeader(ArrayFormat, r.body) == Some((|r.events|, Body(r.events)))
  }

  /** Splitting was needed: the first event of the second request did not fit the first. */
  ghost predicate Tight(r: Request, next: Request) {
    next.events != [] && Encoding(next.events[0]).Some? &&
    5 + |Body(r.events)| + |Encoding(next.events[0]).value| > API_MAX_BATCH_SIZE
  }
}

/** transmit/direct_transmit.go: how a batch is packed into requests, and how events are batched. */
module Transmit {
  import opened Options
  import opened Packing
  import opened Msgpack
  import B = Batching

  method MarshalMsg(ev: Event, b: seq<Byte>) returns (o: seq<Byte>, ok: bool)
    ensures ok == Encoding(ev).Some? && (ok ==> o == b + Encoding(ev).value)
  {
    o := b + TIME_FIELD + ev.time + SAMPLERATE_FIELD + ev.sampleRate + DATA_FIELD;
    match ev.data {
      case None => ok := false;
      case Some(data) =>
        o, ok := o + data, true;
        assert o == b + Encoding(ev).value;
    }
  }

  const RESERVED: seq<Byte> := [0, 0, 0, 0, 0]

  /** Packs events behind the reserved header until one does not fit. Events that cannot be serialized or are
      too large are skipped. At least one event is dealt with, as any acceptable one fits an empty buffer. */
  method Pack(wholeBatch: seq<Event>) returns (packed: seq<Byte>, subBatch: seq<Event>, i: nat)
    ensures i <= |wholeBatch| && (wholeBatch != [] ==> i > 0)
    ensures subBatch == Accepted(wholeBatch[..i])
    ensures packed == RESERVED + Body(subBatch) && |packed| <= API_MAX_BATCH_SIZE
    ensures i < |wholeBatch| ==> Overflows(|packed|, wholeBatch[i])
  {
    hide Accepted, Body, Encoding;
    packed, subBatch := RESERVED, [];
    i := 0;
    PackedNothing(wholeBatch);
    while i < |wholeBatch|
      invariant i <= |wholeBatch| && subBatch == Accepted(wholeBatch[..i])
      invariant packed == RESERVED + Body(subBatch) && |packed| <= API_MAX_BATCH_SIZE
      invariant i == 0 ==> |packed| == 5
    {
      PackedOne(wholeBatch, i, packed, subBatch);
      var newPacked, ok := MarshalMsg(wholeBatch[i], packed);
      if !ok || |newPacked| - |packed| > API_MAX_EVENT_SIZE {
        i := i + 1;
        continue;
      }
      if |newPacked| > API_MAX_BATCH_SIZE {
        break;
      }
      packed := newPacked;
      subBatch := subBatch + [wholeBatch[i]];
      i := i + 1;
    }
  }

  /** An acceptable event does not fit behind so many bytes. */
  predicate Overflows(size: nat, ev: Event) {
    Acceptable(ev) && size + |Encoding(ev).value| > API_MAX_BATCH_SIZE
  }

  lemma PackedNothing(events: seq<Event>)
    ensures Accepted(events[..0]) == [] && RESERVED == RESERVED + Body([])
  {
  }

  lemma PackedOne(events: seq<Event>, i: nat, packed: seq<Byte>, subBatch: seq<Event>)
    requires i < |events| && subBatch == Accepted(events[..i]) && packed == RESERVED + Body(subBatch)
    ensures Acceptable(events[i]) ==> packed + Encoding(events[i]).value == RESERVED + Body(subBatch + [events[i]])
    ensures Accepted(events[..i + 1]) == if Acceptable(events[i]) then subBatch + [events[i]] else subBatch
  {
    hide Encoding, Accepted, Body;
    assert events[..i + 1] == events[..i] + [events[i]];
    BodySnoc(events[..i], events[i]);
    BodySnoc(subBatch, events[i]);
  }

  lemma SmallFits(ev: Event)
    ensures !Overflows(|RESERVED + Body([])|, ev)
  {
  }

  /** Writes the array header into the end of the reserved bytes and drops the rest of them. */
  method PatchHeader(packed: seq<Byte>, n: Size) returns (body: seq<Byte>)
    requires |packed| >= 5
    ensures body == Header(ArrayFormat, n) + packed[5..]
  {
    hide Header;
    var header := Header(ArrayFormat, n);
    HeaderReadsBack(ArrayFormat, n, []);
    body := packed[5 - |header|..];
    for k := 0 to |header|
      invariant body == header[..k] + packed[5 - |header| + k..]
    {
      body := body[k := header[k]];
    }
  }

  /** Packs a batch into as few requests as its order and the limits allow. */
  method SendBatch(batch: seq<Event>) returns (requests: seq<Request>)
    ensures EventsOf(requests) == Accepted(batch)
    ensures forall r :: r in requests ==> WellFormed(r) && |r.body| <= 5_000_000
    ensures forall j :: 0 <= j < |requests| - 1 ==> Tight(requests[j], requests[j + 1])
    ensures forall d :: AllFor(batch, d) ==> forall r :: r in requests ==> r.dest == d
  {
    hide Sending, EventsOf, Accepted, Body, WellFormed, Tight, AllFor, Overflows, Header;
    requests := [];
    var wholeBatch := batch;
    SendingNone(batch);
    while |wholeBatch| > 0
      invariant Sending(batch, wholeBatch, requests)
      decreases |wholeBatch|
    {
      var dest := wholeBatch[0].dest;
      var packed, subBatch, i := Pack(wholeBatch);
      if |subBatch| == 0 {
        SendingSkip(batch, wholeBatch, requests, i, packed);
        wholeBatch := wholeBatch[i..];
        continue;
      }
      PackedSize(wholeBatch, i, packed);
      var body := PatchHeader(packed, |subBatch|);
      SendingOne(batch, wholeBatch, requests, i, packed, Request(dest, subBatch, body));
      wholeBatch := wholeBatch[i..];
      requests := requests + [Request(dest, subBatch, body)];
    }
    SendingAll(batch, requests);
    BodiesFit(requests);
  }

  lemma BodiesFit(requests: seq<Request>)
    requires forall r :: r in requests ==> WellFormed(r)
    ensures forall r :: r in requests ==> |r.body| <= 5_000_000
  {
  }

  /** The requests so far, and the events still to send. */
  ghost predicate Sending(batch: seq<Event>, rest: seq<Event>, requests: seq<Request>) {
    && EventsOf(requests) + Accepted(rest) == Accepted(batch)
    && (forall r :: r in requests ==> WellFormed(r))
    && (forall j :: 0 <= j < |requests| - 1 ==> Tight(requests[j], requests[j + 1]))
    && (requests != [] && rest != [] ==> Overflows(5 + |Body(requests[|requests| - 1].events)|, rest[0]))
    && forall d :: AllFor(batch, d) ==> AllFor(rest, d) && forall r :: r in requests ==> r.dest == d
  }

  lemma SendingNone(batch: seq<Event>)
    ensures Sending(batch, batch, [])
  {
    assert [] + Accepted(batch) == Accepted(batch);
  }

  lemma SendingAll(batch: seq<Event>, requests: seq<Request>)
    requires Sending(batch, [], requests)
    ensures EventsOf(requests) == Accepted(batch)
    ensures forall r :: r in requests ==> WellFormed(r)
    ensures forall j :: 0 <= j < |requests| - 1 ==> Tight(requests[j], requests[j + 1])
    ensures forall d :: AllFor(batch, d) ==> forall r :: r in requests ==> r.dest == d
  {
    hide EventsOf, WellFormed, Tight, AllFor, Overflows;
  }

  /** Nothing was packed: then nothing is left either. */
  lemma SendingSkip(batch: seq<Event>, rest: seq<Event>, requests: seq<Request>, i: nat, packed: seq<Byte>)
    requires Sending(batch, rest, requests) && rest != [] && i <= |rest|
    requires Accepted(rest[..i]) == [] && packed == RESERVED + Body([])
    requires i < |rest| ==> Overflows(|packed|, rest[i])
    ensures Sending(batch, rest[i..], requests)
  {
    hide EventsOf, WellFormed, Tight, AllFor, Overflows, Accepted;
    SplitAt(rest, i);
    if i < |rest| {
      SmallFits(rest[i]);
    }
  }

  lemma SendingOne(batch: seq<Event>, rest: seq<Event>, requests: seq<Request>, i: nat, packed: seq<Byte>, r: Request)
    requires Sending(batch, rest, requests) && rest != [] && 0 < i <= |rest|
    requires r.dest == rest[0].dest && r.events == Accepted(rest[..i]) && r.events != []
    requires packed == RESERVED + Body(r.events) && |packed| <= API_MAX_BATCH_SIZE && |r.events| < SIZE_LIMIT
    requires r.body == Header(ArrayFormat, |r.events|) + packed[5..]
    requires i < |rest| ==> Overflows(|packed|, rest[i])
    ensures Sending(batch, rest[i..], requests + [r])
  {
    hide EventsOf, WellFormed, Tight, AllFor, Overflows, Accepted, Header, Body;
    SplitAt(rest, i);
    SentOne(requests, r);
    assert packed[5..] == Body(r.events);
    RequestIsWellFormed(r);
    if requests != [] {
      SentTight(requests[|requests| - 1], r, rest, i);
    }
    assert EventsOf(requests + [r]) + Accepted(rest[i..]) == EventsOf(requests) + Accepted(rest);
  }

  /** Events of one destination. */
  ghost predicate AllFor(events: seq<Event>, d: Destination) {
    forall ev :: ev in events ==> ev.dest == d
  }

  lemma SentOne(requests: seq<Request>, r: Request)
    ensures EventsOf(requests + [r]) == EventsOf(requests) + r.events
  {
    assert (requests + [r])[..|requests|] == requests;
  }

  lemma SplitAt(events: seq<Event>, i: nat)
    requires events != [] && i <= |events|
    ensures Accepted(events) == Accepted(events[..i]) + Accepted(events[i..])
    ensures Accepted(events[..i]) == [] ==> Accepted(events) == Accepted(events[i..])
    ensures forall d :: AllFor(events, d) ==> events[0].dest == d && AllFor(events[i..], d)
    ensures forall ev :: ev in Accepted(events[..i]) ==> Acceptable(ev)
  {
    hide Accepted, Encoding;
    assert events == events[..i] + events[i..];
    AcceptedConcat(events[..i], events[i..]);
    AcceptedAreAcceptable(events[..i]);
  }

  lemma PackedSize(rest: seq<Event>, i: nat, packed: seq<Byte>)
    requires i <= |rest| && packed == RESERVED + Body(Accepted(rest[..i])) && |packed| <= API_MAX_BATCH_SIZE
    ensures |Accepted(rest[..i])| < SIZE_LIMIT
  {
    hide Accepted, Body;
    AcceptedAreAcceptable(rest[..i]);
    BodyCounts(Accepted(rest[..i]));
  }

  lemma RequestIsWellFormed(r: Request)
    requires r.events != [] && (forall ev :: ev in r.events ==> Acceptable(ev)) && |r.events| < SIZE_LIMIT
    requires r.body == Header(ArrayFormat, |r.events|) + Body(r.events) && |Body(r.events)| + 5 <= API_MAX_BATCH_SIZE
    ensures WellFormed(r)
  {
    HeaderReadsBack(ArrayFormat, |r.events|, Body(r.events));
  }

  lemma SentTight(last: Request, r: Request, events: seq<Event>, i: nat)
    requires events != [] && 0 < i <= |events| && r.events == Accepted(events[..i])
    requires Overflows(5 + |Body(last.events)|, events[0])
    ensures Tight(last, r)
  {
    FirstAccepted(events[..i]);
  }

  lemma FirstAccepted(events: seq<Event>)
    requires events != [] && Acceptable(events[0])
    ensures Accepted(events) != [] && Accepted(events)[0] == events[0]
  {
    assert events == [events[0]] + events[1..];
    AcceptedConcat([events[0]], events[1..]);
    BodySnoc([], events[0]);
    assert [] + [events[0]] == [events[0]];
  }

  /** The pending events of one destination. No events stand for a batch that has not begun. */
  class EventBatch {
    var events: seq<Event>
    var startTime: B.Time

    constructor ()
      ensures events == [] && startTime == 0
    {
      events, startTime := [], 0;
    }

    ghost function View(): B.Batch
      reads this
    {
      B.Batch(events, startTime)
    }

    /** The first event sets the start time; a full batch comes back and leaves an empty one. */
    method Add(ev: Event, now: B.Time, maxBatchSize: int) returns (full: Option<seq<Event>>)
      modifies this
      ensures var events := old(events) + [ev];
        && full == (if |events| >= maxBatchSize then Some(events) else None)
        && View() == B.Batch(if full.Some? then [] else events, if old(this.events) == [] then now else old(startTime))
    {
      if |events| == 0 {
        startTime := now;
      }
      events := events + [ev];
      full := None;
      if |events| >= maxBatchSize {
        full := Some(events);
        events := [];
      }
    }
  }

  class DirectTransmission {
    const limits: B.Limits
    var eventBatches: map<Destination, EventBatch>
    /** The batches given to the pool of senders. */
    var dispatched: seq<seq<Event>>
    var stopped: bool
    ghost var enqueued: seq<Event>
    ghost var tick: Option<B.Tick>

    /** Batches are not shared between destinations. */
    ghost predicate Valid()
      reads this
    {
      forall d, e :: d in eventBatches && e in eventBatches && d != e ==> eventBatches[d] != eventBatches[e]
    }

    ghost function View(): B.State
      reads this, eventBatches.Values
    {
      B.State(map d | d in eventBatches :: eventBatches[d].View(), dispatched, tick, stopped, enqueued)
    }

    constructor (maxBatchSize: int, batchTimeout: int)
      ensures Valid() && View() == B.INIT && limits == B.Limits(maxBatchSize, batchTimeout)
    {
      limits := B.Limits(maxBatchSize, batchTimeout);
      eventBatches, dispatched, stopped := map[], [], false;
      enqueued, tick := [], None;
    }

    /** The critical sections that look a batch up and create it. */
    method BatchFor(key: Destination) returns (batch: EventBatch)
      requires Valid()
      modifies this`eventBatches
      ensures Valid() && View() == B.Created(old(View()), key)
      ensures key in eventBatches && eventBatches[key] == batch
      ensures fresh(eventBatches.Values - old(eventBatches).Values)
    {
      if key in eventBatches {
        return eventBatches[key];
      }
      batch := new EventBatch();
      eventBatches := eventBatches[key := batch];
      assert eventBatches.Values <= old(eventBatches).Values + {batch};
      assert View().batches == old(View()).batches[key := B.Batch([], 0)];
    }

    /** One batch changed. */
    twostate lemma OneBatch(key: Destination)
      requires old(Valid()) && key in eventBatches && eventBatches == old(eventBatches)
      requires unchanged(old(eventBatches).Values - {eventBatches[key]})
      ensures View().batches == old(View()).batches[key := eventBatches[key].View()]
    {
    }

    /** The critical section that adds the event, and takes the batch when it is full. */
    method AddEvent(batch: EventBatch, ev: Event, now: B.Time)
      requires Valid() && ev.dest in eventBatches && eventBatches[ev.dest] == batch
      modifies this`dispatched, this`enqueued, batch
      ensures Valid() && View() == B.Appended(old(View()), ev, now, limits)
    {
      var full := batch.Add(ev, now, limits.maxBatchSize);
      if full.Some? {
        dispatched := dispatched + [full.value];
      }
      enqueued := enqueued + [ev];
      OneBatch(ev.dest);
    }

    method EnqueueEvent(ev: Event, now: B.Time)
      requires Valid()
      modifies this`eventBatches, this`dispatched, this`enqueued, eventBatches.Values
      ensures Valid() && View() == B.Appended(B.Created(old(View()), ev.dest), ev, now, limits)
    {
      var batch := BatchFor(ev.dest);
      AddEvent(batch, ev, now);
    }

    /** The critical section of the ticker for one key. */
    method VisitStale(key: Destination, dispatchStart: B.Time)
      requires Valid() && tick.Some? && tick.value.start == dispatchStart
      modifies this`dispatched, this`tick, eventBatches.Values
      ensures Valid() && View() == B.Visited(old(View()), key, limits)
      ensures tick.Some? && tick.value.start == dispatchStart
    {
      tick := Some(B.Tick(dispatchStart, tick.value.left - {key}));
      if key !in eventBatches {
        return;
      }
      var batch := eventBatches[key];
      var batchCount := |batch.events|;
      if batchCount > 0 && dispatchStart - batch.startTime >= limits.timeout {
        var events := batch.events;
        batch.events := [];
        dispatched := dispatched + [events];
        OneBatch(key);
      } else {
        assert View().batches == old(View()).batches;
      }
    }

    /** One tick: a snapshot of the keys, and a visit to each. */
    method DispatchStaleBatches(dispatchStart: B.Time) returns (ghost order: seq<Destination>)
      requires Valid() && tick.None?
      modifies this`dispatched, this`tick, eventBatches.Values
      ensures Valid() && IsOrder(order, eventBatches.Keys)
      ensures View() == B.Visits(B.TickStarted(old(View()), dispatchStart), order, limits).(tick := None)
    {
      hide B.Visited, B.Visits, IsOrder, B.TickStarted;
      var keys := eventBatches.Keys;
      StartTick(dispatchStart);
      order := VisitKeys(keys, dispatchStart);
      EndTick();
    }

    ghost method StartTick(now: B.Time)
      requires Valid()
      modifies this`tick
      ensures Valid() && View() == B.TickStarted(old(View()), now)
      ensures tick.Some? && tick.value.start == now
    {
      ghost var was := View();
      tick := Some(B.Tick(now, eventBatches.Keys));
      assert View().batches == was.batches && was.batches.Keys == eventBatches.Keys;
    }

    ghost method EndTick()
      requires Valid()
      modifies this`tick
      ensures Valid() && View() == old(View()).(tick := None)
    {
      ghost var was := View();
      tick := None;
      assert View().batches == was.batches;
    }

    method VisitKeys(keys: set<Destination>, dispatchStart: B.Time) returns (ghost order: seq<Destination>)
      requires Valid() && tick.Some? && tick.value.start == dispatchStart
      modifies this`dispatched, this`tick, eventBatches.Values
      ensures Valid() && IsOrder(order, keys) && View() == B.Visits(old(View()), order, limits)
    {
      hide B.Visited, B.Visits;
      var rest := keys;
      order := [];
      ghost var started := View();
      B.VisitsNone(started, limits);
      while rest != {}
        invariant Valid() && rest <= keys && IsOrder(order, keys - rest)
        invariant tick.Some? && tick.value.start == dispatchStart && View() == B.Visits(started, order, limits)
        decreases rest
      {
        var key :| key in rest;
        rest := rest - {key};
        B.VisitsOne(started, order, key, limits);
        VisitStale(key, dispatchStart);
        order := order + [key];
      }
    }

    /** Dispatches all that is pending. No enqueue follows. */
    method Stop() returns (ghost order: seq<Destination>)
      requires Valid()
      modifies this
      ensures Valid() && IsOrder(order, old(View()).batches.Keys) && View() == B.Stopped(old(View()), order)
    {
      var batches := eventBatches;
      var rest := batches.Keys;
      ghost var was := View();
      stopped := true;
      eventBatches, order := map[], [];
      while rest != {}
        invariant rest <= batches.Keys && IsOrder(order, batches.Keys - rest)
        invariant eventBatches == map[] && stopped && tick == was.tick && enqueued == was.enqueued
        invariant dispatched == was.handed + B.Flushed(was.batches, order)
        decreases rest
      {
        var key :| key in rest;
        rest := rest - {key};
        assert (order + [key])[..|order|] == order && was.batches[key] == batches[key].View();
        if |batches[key].events| > 0 {
          dispatched := dispatched + [batches[key].events];
        }
        order := order + [key];
      }
    }
  }
}
