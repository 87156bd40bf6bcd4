# Refinery: a verified model of the tail sampler

Refinery is a tail-sampling proxy for tracing data. This project models its stateful cores in Dafny and proves what
they promise.

| files | what they model |
|---|---|
| `Collector.dfy`, `CollectorRuns.dfy`, `CollectorDeadlines.dfy`, `CollectorMemory.dfy`, `CollectorCauses.dfy`, `CollectorEmissions.dfy` | One collector worker as a state machine over values, and the theorems about its runs: conservation of spans, one decision per trace, when it is due, bounded waiting, late spans that obey, a decision behind every span that is dropped or sent, and the rate and numbers that it carries |
| `Worker.dfy`, `TraceCache.dfy`, `SentCache.dfy`, `DropFilter.dfy`, `Lru.dfy` | The classes that implement it: the worker, the trace and its cache, the cache of decisions with its two-filter drop memory, the LRU ring. Every method is proved against the state machine or a specification on values |
| `Payload.dfy`, `PayloadRefinement.dfy`, `PayloadIds.dfy`, `PayloadRoundTrip.dfy` | The lazily read payload: metadata fields over a memo over serialized pairs, with a list of missing fields; one plain map as its meaning; marshalling and extraction |
| `Batching.dfy`, `BatchingCauses.dfy`, `Transmit.dfy` | Batches by destination as interleaved critical sections, with a cause for every hand-off, and the splitter that packs a batch into requests |
| `Fanout.dfy` | The fan-out functions as goroutines over bounded channels, for every schedule |
| `Sharder.dfy` | Highest-random-weight choice of the owner of a trace |
| `Rules.dfy` | Rule matching with its early exits, and the comparison of values |
| `JsonToMsgpack.dfy`, `Msgpack.dfy` | JSON trees as MessagePack bytes, size headers |
| `Options.dfy` | Options, elements and orders of sets |

A class method that refines a step of a state machine says so in its postcondition: `C.Next(old(state), e, state)`, or
that its `View()` is a function of the old one. The theorems are then about the state machine or that function.

What the program leaves open is an input of the model, so that the theorems hold for all of it: clocks, the verdicts of
the sampler, random choices, hash values, false positives and the load of a cuckoo filter, how long a lock is held, the
order in which Go goes through a map, the order of equal deadlines, the order of traces by their impact on the cache.
A step reads the clock and the configuration once.

Integers are unbounded unless stated: span counts and recorded rates wrap at 32 bits, sample rates at 64, and lengths
are truncated to 32 bits in MessagePack headers, as in the code.

Where the code and its documentation differ, the model follows the code:

- A sampling key that is also a name of the trace id or a parent id is listed as missing although it is there
  (`types/payload.go:326-384`). The exact condition is `PayloadRefinement.ExtractionIsHonest`.
- Memoizing a metadata field reads it again from the serialized bytes and so undoes a later Set
  (`types/payload.go:632-637`): `PayloadRefinement.MemoizingRevivesMetadata` and `PayloadRefinement.MemoizedAt`.
- Memoizing changes and hides fields when the serialized data repeats a key, as a JSON batch can
  (`types/payload.go:615-640`): `PayloadRefinement.RepeatedKeysDisturb`. The exact condition is
  `PayloadRefinement.MemoizingIsExact`.
- Marshalling and extracting a payload can change its root flag or trace id (`PayloadRoundTrip.RootFlagIsLost`,
  `PayloadRoundTrip.TraceIdComesBack`). The exact condition is in `PayloadRoundTrip.MarshalThenExtract`.
- Fan-out without workers and with items never returns: `Fanout.EndsReturned`.
- Late spans of a trace with a rate of 2^32 or more are weighed differently: `Collector.LateWeightAgrees`.

## Model

| member | source | states |
|---|---|---|
| `CollectorSafety.RunIsSafe` | collect/collector_worker.go:222-498 | In every run of a worker from its initial state - spans, ticks, early ejections, reloads, the sender and the drop-memory goroutines in any order - every reachable state is safe: the two indexes of the trace cache agree, no cached trace was sent, every span received is in exactly one place (its live trace, the outgoing queue, sent, or dropped), and every trace started is live or was decided exactly once; that each drop and each sending has its cause is `CollectorCauses.RunIsExplained` |
| `CollectorSafety.StepKeeps` | collect/collector_worker.go:222-498 | Each single step of any kind keeps those four invariants |
| `CollectorSafety.DecidedAllKeeps` | collect/collector_worker.go:324-366 | Deciding a batch of unsent traces in hand moves exactly their spans to the outgoing queue or to the dropped ones, and decides each id once |
| `CollectorSafety.VictimsAreUnsent` | collect/collector_worker.go:387-403 | When no cached trace was sent, the victims of an early ejection are exactly a prefix of the order gone through: the error branch is never taken |
| `CollectorSafety.DecidedAllCommutes` | collect/collector_worker.go:371-406 | Deciding traces before removing them from the cache (early ejection) or after (tick) leads to the same state |
| `CollectorProgress.NoStarvation` | collect/collector_worker.go:316-324 | With a batch limit of at least m, a trace whose deadline has strictly passed and that has k others due no later leaves the cache within k/m + 1 ticks, whatever spans, ejections and reloads come in between |
| `CollectorProgress.DeadlinesNeverGetLater` | collect/collector_worker.go:246-312 | No step moves a deadline back, and none sets one before the current time |
| `CollectorProgress.TickTakesRivals` | collect/cache/cache.go:116-156 | A tick that leaves a due trace behind takes a full batch of traces due no later |
| `CollectorMemory.LateSpansOfKeptTracesAreSent` | collect/collect.go:487-548 | Over any run in which a kept trace stays remembered and the drop filter has no false positive for it: exactly its late spans are sent, in order, none is dropped, the record keeps its rate, and its total grows by the number of late spans and stays the sum of its sub-counts |
| `CollectorMemory.RecentlyUsedTracesAreSent` | collect/cache/cuckooSentCache.go:233-303 | The same without assuming that it stays remembered: a kept record survives, and its late spans are sent and counted, as long as fewer other traces were asked for or recorded as kept since its last late span than the cache holds, whatever reloads do to its size |
| `CollectorMemory.LateSpansOfDroppedTracesAreDropped` | collect/collect.go:487-548 | Over any run, as long as every late span of a dropped trace comes in time - within 3 seconds of the decision or of the late span before it, or with the id in the current filter - each is dropped, or sent when it comes in a dry run, in order, and the trace is not started again |
| `CollectorMemory.AnsweredAsDropped` | collect/cache/cuckooSentCache.go:249-258 | A late span of a dropped trace is answered as dropped if and only if it comes in time or meets a false positive |
| `CollectorMemory.DrainedInTime` | collect/cache/cuckoo.go:112-201 | An id that is drained before its running lapse, and that no later rotation forgets, has every late span come in time |
| `CollectorMemory.CurrentStays` | collect/cache/cuckoo.go:173-201 | A step takes an id out of the current filter if and only if it is a rotation whose future filter and drained ids lack it |
| `CollectorMemory.KeptSpan` | collect/collect.go:487-548 | One late span of a kept trace: sent with the product, in 64 bits, of its own rate (0 counts as 1) and the rate of the record, or with its own in a dry run, and, if it is a root span, with the numbers of the record, which counts it |
| `CollectorMemory.KeptDecisionIsKnown` | collect/collector_worker.go:420-498 | After a decision to keep, the id is known as kept, newest of all, with the rate, the number of its spans, the number of those of each kind, and a total that is the sum of these |
| `CollectorMemory.DropDecisionIsKnown` | collect/cache/cuckooSentCache.go:233-247 | A decision to drop starts the short memory of the id whether or not the add queue has room, and queues the id if it has |
| `Collector.LateWeightAgrees` | collect/cache/cuckooSentCache.go:47-61 | A span is weighed with the product of its rate and the trace's; a late one like the spans sent with its trace, for every rate that it may carry, exactly when the trace's rate fits the 32 bits of its record |
| `Deadlines.TakeSize` | collect/cache/cache.go:116-156 | A take returns exactly min(max, number due) traces, or all due ones when max is not positive |
| `CollectorMemory.QueuedIsRecognised` | collect/cache/cuckoo.go:112-201 | A queued id whose turn to be drained comes within its running lapse, and that no rotation forgets after that, has every late span come in time; how far it has moved up is the number of ids drained |
| `CollectorMemory.QueuedTracesStayDropped` | collect/collect.go:487-548 | All late spans of such a trace are dropped, or sent in dry runs, in order, and it is not started again |
| `CollectorMemory.QueueMoves` | collect/cache/cuckoo.go:112-161 | A step moves a queued id up by what is drained, and into the current filter when its turn comes |
| `CollectorCauses.RunIsExplained` | collect/collector_worker.go:222-498 | In every run from the initial state, every span dropped is of a trace that a decision dropped outside of a dry run, or that a false positive of the drop filter took for dropped; every span sent, and every trace handed over, was kept or was dropped in a dry run, as its flag says; every id in the short memory, the filters and their queue was dropped, and every record kept |
| `CollectorCauses.StepIsExplained` | collect/collector_worker.go:222-498 | Each step adds to these causes exactly the verdicts that it decides and the false positive that it meets |
| `CollectorCauses.SpansFollowCauses` | collect/collector_worker.go:222-498 | In a state whose drops and sendings have causes: a span of a trace that nothing dropped is in its live trace, handed over, or sent, as often as it was received; one of a trace that nothing kept, nor dropped in a dry run, is live or dropped |
| `CollectorCauses.SpansFollowDecisions` | collect/collector_worker.go:222-498 | The same in every state of every run from the initial one: a span of a trace that nothing dropped is in its live trace, handed over, or sent, as often as it was received; one of a trace that nothing kept, nor dropped in a dry run, is live or dropped |
| `CollectorCauses.KeptTracesStaySent` | collect/collect.go:487-548 | From the decision on, in runs from the initial state: a trace that is kept, and that nothing dropped before, has all its later spans sent and counted, without false positives for it, as long as fewer other traces were kept with it, or used since its last late span, than the cache holds |
| `CollectorCauses.DroppedTracesStayDropped` | collect/collect.go:487-548 | From the decision on, in runs from the initial state: a trace that is dropped and queued has all its later spans dropped, or sent in dry runs, and is never started again, as long as its late spans come within the short memory until its turn in the queue, and no rotation forgets it afterwards |
| `CollectorCauses.KeptInBatch` | collect/collector_worker.go:324-366 | A trace that a batch keeps is known as kept after the batch, with the rate of its verdict and the numbers of its spans by kind, as long as fewer others of the batch were kept than the cache holds |
| `CollectorCauses.DroppedByDecision` | collect/cache/cuckooSentCache.go:233-247 | A tick or early ejection that drops a trace starts its short memory, and queues the id when the queue has room for the batch |
| `CollectorDeadlines.SpanSetsDeadline` | collect/collector_worker.go:246-312 | A span that joins or starts a trace is appended to it and makes it due at the earlier of its deadline (60 seconds from now by default for a new trace) and now, if the trace is then beyond a positive limit, or, if it is a root span, 2 seconds from now by default; it becomes the root if it is one, both indexes have the deadline, and no other trace changes |
| `CollectorDeadlines.RunDeadlines` | collect/collector_worker.go:246-312 | In every run each live trace consists of the spans that came for it since it was started, in order, with their total size and the last root among them, and its deadline is the least of: the timeout after the first, the delay after each root span, and the arrival of each span beyond the limit, by the settings that each span met |
| `CollectorDeadlines.TicksDecideDueTraces` | collect/collector_worker.go:316-369 | No tick of a run decides a trace before one of these reasons has come |
| `CollectorDeadlines.DueTracesLeave` | collect/collector_worker.go:316-369 | Once one of these reasons has strictly passed, with a batch limit of at least m, a trace with k rivals is gone within k/m + 1 ticks |
| `CollectorSafety.VictimsFreeEnough` | collect/collector_worker.go:387-403 | An early ejection takes the fewest of the first traces whose total size exceeds the budget, or all |
| `CollectorEmissions.SendEmits` | collect/collect.go:694-739 | The sender emits every span of the oldest trace, in order; outside of a dry run the rate of each is the product of its own (0 counts as 1) and the trace's in 64 bits, else its own; a root span, and no other, carries the number of spans, or those of each kind too, as the settings say |
| `CollectorEmissions.LateEmits` | collect/collect.go:487-548 | A span without a live trace: dropped, or sent as it is in a dry run, if the short memory, the filter or a false positive takes it for dropped; else sent with the product of the rates and the counted numbers of the record if its trace is remembered as kept; else it starts a trace |
| `CollectorEmissions.BatchHands` | collect/collect.go:581-644 | A tick or early ejection hands over, in order, the traces that are kept, or all in a dry run, each with its verdict's rate and flag and its reason (root, limit, timeout, or ejected), and drops the spans of the others |
| `CollectorEmissions.EmissionsCarryTheRate` | collect/collect.go:550-576 | In every run each emission carries, outside of a dry run, its span's own rate times the rate of a verdict on its trace, in 64 bits; for a late span that is the verdict that last kept the trace, in 32 bits; in a dry run a span keeps its own rate |
| `Worker.CollectorWorker.ProcessSpan` | collect/collector_worker.go:222-313 | Refines the Receive step: a span joins its live trace (with the root span and the span limit bringing the deadline forward in both indexes), obeys a remembered decision, or starts a trace |
| `Worker.CollectorWorker.SendExpiredTracesInCache` | collect/collector_worker.go:316-369 | Refines the Tick step: the due traces taken are decided, recorded and handed over in deadline order, with the reason of each |
| `Worker.CollectorWorker.SendTracesEarly` | collect/collector_worker.go:371-406 | Refines the Early step: unsent traces in the given order are let go until more than the budget is freed, and exactly those leave both indexes |
| `Worker.CollectorWorker.NoCachedTraceWasSent` | collect/collector_worker.go:270-281 | In every state that a run reaches no cached trace was sent, so that the branch for sent traces and the error return of a decision are never taken |
| `Worker.CollectorWorker.Eject` | collect/collector_worker.go:371-405 | The loop of an early ejection decides exactly the victims, the last one being the first that exceeds the budget, and collects exactly their ids |
| `Worker.CollectorWorker.MakeDecision` | collect/collector_worker.go:420-498 | Fails exactly on a trace that was sent, changing nothing; else sets rate and verdict and records the decision once |
| `Worker.CollectorWorker.Send` | collect/collect.go:581-644 | Does nothing to a sent trace; else marks it sent and drops its spans or hands it to the sender, exactly as verdict and dry run say |
| `Worker.CollectorWorker.DealWithSentTrace` | collect/collect.go:487-548 | A late span is sent with merged rate and root counts, sent unchanged in a dry run, or dropped |
| `Worker.CollectorWorker.SendTraces` | collect/collect.go:694-739 | Refines the Send step: the oldest trace handed over leaves the channel and each of its spans is transmitted, in order, with merged rate and root counts |
| `Worker.CollectorWorker.Transmit` | collect/collect.go:694-739 | The emissions of one trace are those of the specification, whether or not the span counts were memoized before |
| `Worker.CollectorWorker.Reload` | collect/collector_worker.go:203-209 | Refines the Reload step: only the memory of decisions changes |
| `Worker.CollectorWorker.Drain` | collect/cache/cuckoo.go:112-147 | Refines the Tend step of a drain: only the memory of decisions changes |
| `Worker.CollectorWorker.StartFuture` | collect/cache/cuckoo.go:187-192 | Refines the Tend step that starts the future filter |
| `Worker.CollectorWorker.Rotate` | collect/cache/cuckoo.go:194-200 | Refines the Tend step that rotates the filters, given that a future filter is there when the load asks for it |
| `Worker.CollectorWorker.CleanUp` | collect/cache/cuckooSentCache.go:216-218 | Refines the CleanUp step of the short memory |
| `Traces.Trace.AddSpan` | types/event.go:94-105 | Appends the span and its size, and changes nothing else |
| `Traces.Trace.CalculateSpanCounts` | types/event.go:145-169 | The loop computes the number of span events, links and other spans, in 32-bit arithmetic |
| `Traces.Trace.SpanCounts` | types/event.go:176-201 | The memoized counts equal the counts of the spans, given that none was added since they were computed |
| `Spans.CountsAre` | types/event.go:145-169 | Each sub-count is the number of the spans with that annotation, in 32 bits |
| `Spans.CountsAddUp` | types/event.go:145-169 | The three sub-counts of any sequence of spans add up to its length, in 32-bit arithmetic |
| `TraceCache.DefaultInMemCache.Set` | collect/cache/cache.go:87-97 | Puts the trace in both indexes with its deadline and restores their agreement |
| `TraceCache.DefaultInMemCache.GetAll` | collect/cache/cache.go:105-107 | Lists every cached trace once |
| `TraceCache.DefaultInMemCache.TakeExpiredTraces` | collect/cache/cache.go:116-156 | Takes, in deadline order, the earliest due traces that the filter does not reject, up to max; puts skipped ones back with their deadlines; leaves the rest intact in both indexes |
| `TraceCache.DefaultInMemCache.RemoveTraces` | collect/cache/cache.go:160-167 | Removes exactly the given ids from both indexes |
| `TraceCache.PoppedOne` | collect/cache/cache.go:120-146 | Popping a minimum extends what was taken or skipped, in order, or shows that nothing left is due |
| `SentCache.CuckooSentCache.ViewIsValid` | collect/cache/cuckooSentCache.go:170-205 | The cache of decisions always stands for records with distinct keys within their limit and a future filter inside the current one |
| `SentCache.CuckooSentCache.Record` | collect/cache/cuckooSentCache.go:233-247 | A kept trace gets a new newest record; a dropped one is remembered for 3 seconds and queued for the filters |
| `SentCache.CuckooSentCache.CheckSpan` | collect/cache/cuckooSentCache.go:249-269 | Answers dropped if the short memory or the current filter has the id (refreshing the short memory), else kept with the span counted in the record, which becomes the newest, else unknown |
| `SentCache.CuckooSentCache.Resize` | collect/cache/cuckooSentCache.go:271-303 | Refuses a size that is not positive; else keeps exactly the newest records, in the same order, and leaves the drop memory alone |
| `SentCache.CuckooSentCache.CopyKeys` | collect/cache/cuckooSentCache.go:279-292 | Copying the newest keys, oldest first, while reading each from the old cache, gives the new cache the same order and restores the order of the old one |
| `SentCache.ReadBackStep` | collect/cache/cuckooSentCache.go:284-292 | One copy: the record read is the one of the original order, and the new cache holds one more of the newest |
| `SentCache.CuckooSentCache.Maintain` | collect/cache/cuckooSentCache.go:208-224 | Maintenance of the filters and clean-up of the short memory, as specified |
| `Decisions.CleanUpForgetsNothing` | collect/cache/cuckooSentCache.go:208-224 | Cleaning up the short memory changes no answer now or later, and leaves no entry that has lapsed |
| `Decisions.NewRecordIsBalanced` | collect/cache/cuckooSentCache.go:47-61 | The total of a new record is the sum of its sub-counts |
| `DropFilter.CuckooTraceChecker.Drain` | collect/cache/cuckoo.go:112-147 | Moves the first ids of the queue, as many as the time allows, to every filter that exists, in order |
| `DropFilter.CuckooTraceChecker.Add` | collect/cache/cuckoo.go:152-161 | Queues the id unless the queue is full |
| `DropFilter.CuckooTraceChecker.Maintain` | collect/cache/cuckoo.go:173-201 | Its three sections in a row: drains, starts a future filter past half load, and past 99% puts it in place of the current one with an empty successor; current is never nil |
| `DropFilter.CuckooTraceChecker.StartFuture` | collect/cache/cuckoo.go:187-192 | Past half load a future filter starts, if there is none |
| `DropFilter.CuckooTraceChecker.Rotate` | collect/cache/cuckoo.go:194-200 | Past 99% the future filter becomes the current one, and an empty one the future |
| `DropMemory.StartedIsReady` | collect/cache/cuckoo.go:173-201 | Whatever else happens between its sections, maintenance that rotates after it started the future filter finds one: the current filter is never nil |
| `DropMemory.RunIsValid` | collect/cache/cuckoo.go:112-201 | In every run the future filter holds only ids of the current one |
| `DropMemory.DrainedIdsOutliveOneRotation` | collect/cache/cuckoo.go:173-201 | An id drained while a future filter exists is recognised through the next rotation; one drained without, until the next rotation |
| `DropMemory.DrainedPastHalfLoad` | collect/cache/cuckoo.go:173-201 | Once maintenance found the current filter more than half full, an id that is drained is recognised through the next rotation, whatever comes in between |
| `DropMemory.QueuedIdsAreDrained` | collect/cache/cuckoo.go:112-161 | A queued id is in the queue or in the current filter as long as there is no rotation |
| `Lru.LruList.Insert` | LICENSES/github.com/hashicorp/golang-lru/v2/internal/list.go:80-88 | The pointer writes keep the ring linked both ways and put the entry just after the given one |
| `Lru.LruList.Remove` | LICENSES/github.com/hashicorp/golang-lru/v2/internal/list.go:96-105 | Takes exactly that entry out of the ring and clears its links |
| `Lru.LruList.Move` | LICENSES/github.com/hashicorp/golang-lru/v2/internal/list.go:108-119 | The ring afterwards has the entry just after the given one and is otherwise in the old order |
| `Lru.LruList.PushFront` | LICENSES/github.com/hashicorp/golang-lru/v2/internal/list.go:122-125 | The new entry is first |
| `Lru.LruList.MoveToFront` | LICENSES/github.com/hashicorp/golang-lru/v2/internal/list.go:136-142 | The entry becomes first; an entry of another list is left alone |
| `Lru.LruList.Back` | LICENSES/github.com/hashicorp/golang-lru/v2/internal/list.go:65-70 | The last entry, or nothing in an empty list |
| `Lru.Entry.PrevEntry` | LICENSES/github.com/hashicorp/golang-lru/v2/internal/list.go:35-40 | The entry before, or nothing for the first |
| `Lru.LruCache.Get` | LICENSES/github.com/hashicorp/golang-lru/v2/simplelru/lru.go:71-77 | Finds exactly the cached keys with their values and makes the key the most recent |
| `Lru.LruCache.Add` | LICENSES/github.com/hashicorp/golang-lru/v2/simplelru/lru.go:50-68 | Ring and map afterwards represent the bounded recency order with the key first; says whether one was evicted |
| `Lru.LruCache.Remove` | LICENSES/github.com/hashicorp/golang-lru/v2/simplelru/lru.go:98-104 | Removes exactly the key, and says whether it was there |
| `Lru.LruCache.RemoveOldest` | LICENSES/github.com/hashicorp/golang-lru/v2/simplelru/lru.go:164-177 | Drops exactly the least recent entry |
| `Lru.LruCache.Keys` | LICENSES/github.com/hashicorp/golang-lru/v2/simplelru/lru.go:124-132 | The keys from oldest to newest |
| `Lru.LruCache.Resize` | LICENSES/github.com/hashicorp/golang-lru/v2/simplelru/lru.go:151-161 | Keeps exactly the newest entries, in order, and counts the evicted |
| `Lru.LruCache.KeysAreDistinct` | LICENSES/github.com/hashicorp/golang-lru/v2/simplelru/lru.go:50-68 | Ring and map represent distinct keys, and the map has exactly those of the ring |
| `Recency.AddedIsBoundedRecency` | LICENSES/github.com/hashicorp/golang-lru/v2/simplelru/lru.go:50-68 | Adding keeps keys distinct and within the size, puts the key first, and forgets exactly the least recent entry exactly when a new key meets a full cache |
| `Recency.TouchKeepsEntries` | LICENSES/github.com/hashicorp/golang-lru/v2/simplelru/lru.go:71-77 | Reading a key reorders the entries and loses none |
| `Payload.Payload.ExtractCriticalFieldsFromBytes` | types/payload.go:270-393 | Refines extraction as specified on values, errors included: the fields read before a failure stay |
| `Payload.Payload.ExtractPair` | types/payload.go:299-363 | One pair goes to a metadata field, to the trace id, to the root flag, to the memo, or is skipped, with the conditions of the code |
| `Payload.Payload.UnmarshalMsgpEvent` | types/payload.go:526-535 | The data is kept exactly when extraction succeeds |
| `Payload.Payload.Get` | types/payload.go:690-730 | Returns the field as metadata, memo, missing list and serialized pairs say, in that order |
| `Payload.Payload.Exists` | types/payload.go:650-685 | True exactly when Get finds a field |
| `Payload.Payload.Set` | types/payload.go:732-743 | Changes the metadata field, if the type fits, or the memo, and nothing else |
| `Payload.Payload.MemoizeFields` | types/payload.go:589-648 | Pulls the keys that are neither missing nor memoized from the pairs until all were found, and lists the rest as missing |
| `Payload.Payload.MarshalMsg` | types/payload.go:884-965 | Fails exactly on a field without a serialized form or more than 65535 fields; else appends a map16 header that counts the pairs written and the pairs, for some order of the two maps |
| `Payload.MsgpPayloadMapIter.NextKey` | types/msgp_payload_map.go:41-66 | Yields the next key, skipping a value that was not asked for, and ends exactly when no pair is left |
| `Payload.MsgpPayloadMapIter.ValueAny` | types/msgp_payload_map.go:70-98 | Yields the value of the last key once, and fails when none is pending |
| `Fields.MetaKeysHaveThePrefix` | types/payload.go:58-91 | Every metadata field starts with `meta.`, so that the prefix test before the table loses none |
| `PayloadRefinement.PayloadRefinesMap` | types/payload.go:589-743 | After any sequence of Set and MemoizeFields, Get and Exists answer every key that repeated keys of the data do not disturb, and so every key of data without repeated keys, as one map does: each field has the value last put, where metadata fields take only values of their type and forget an empty one, and a metadata field takes the value that the data holds the first time that it is memoized |
| `PayloadRefinement.RefinesExactly` | types/payload.go:589-743 | A field that is not metadata is that of one map after all calls if and only if repeated keys do not disturb it: each pair that repeats an earlier one, and that memoizing might count, comes behind the first pair of the field and does not give the field another value |
| `PayloadRefinement.MemoizingIsExact` | types/payload.go:589-648 | For any payload: no list of keys to memoize changes or hides a field that is not metadata if and only if repeated keys do not disturb it |
| `PayloadRefinement.RepeatedKeysDisturb` | types/payload.go:615-640 | A concrete extracted payload with a repeated key: memoizing changes the answer for that key and hides another field |
| `PayloadRefinement.FieldsArePlain` | types/payload.go:589-743 | A field that is not metadata, that the data does not hold, or that no call memoizes is that of a plain map under Set |
| `PayloadRefinement.MemoizingSettles` | types/payload.go:589-648 | Memoizing settles exactly the metadata fields asked for, and reads again exactly those that were not settled and that the data holds |
| `PayloadRefinement.ExtractedMap` | types/payload.go:270-393 | After a successful extraction the payload stands for the pairs of the data: every ordinary field is the first pair of its key, if keys are distinct or the sampling keys are no names of ids; every metadata field, apart from the trace id and the root flag, is the pair read by its type, if keys are distinct |
| `PayloadRefinement.MemoizedAt` | types/payload.go:589-648 | Of fields that repeated keys do not disturb, memoizing changes no answer but that of a metadata field that the data holds and that is memoized for the first time, which is read again; it hides nothing |
| `PayloadRefinement.MemoizingRevivesMetadata` | types/payload.go:732-743 | An extracted payload whose metadata field, once set, goes back to its old value when it is memoized, for all names but sampling keys |
| `PayloadRefinement.ExtractionIsHonest` | types/payload.go:326-384 | After a successful extraction of distinct keys, the missing list hides no present field if and only if no sampling key was taken for the trace id or a parent id |
| `PayloadRefinement.UntakenIsHonest` | types/payload.go:326-384 | After any successful extraction, repeated keys or not, the missing list hides nothing if no sampling key was taken for an id |
| `PayloadRefinement.HonestNames` | types/payload.go:326-384 | After successful extraction the missing list hides no field of any data, repeated keys or not, if and only if no sampling key, other than metadata, is a name of the trace id or a parent id |
| `PayloadRefinement.SamplingByTraceIdIsHidden` | types/payload.go:326-384 | A concrete payload whose sampling key is also the name of the trace id: the field is there and cannot be seen |
| `PayloadIds.ExtractedTraceId` | types/payload.go:299-330 | After any successful extraction the trace id is the last explicit one, unless that is empty; else the first non-empty text, behind it, of a field with a trace id name; else there is none |
| `PayloadIds.ExtractedRoot` | types/payload.go:331-388 | After any successful extraction the root flag is unset in a log; else it is the last explicit one, or true, and false when a field behind that is read as a parent id, which a trace id name prevents until a trace id is known |
| `PayloadIds.FailsExactly` | types/payload.go:299-325 | Extraction of well-formed data fails exactly on a metadata field that is a binary string or a number beyond 63 bits, and keeps the data exactly when it succeeds |
| `PayloadIds.MissingExactly` | types/payload.go:366-384 | When keys are distinct and sampling keys are no names of ids, the sampling keys listed as missing are exactly those that the data does not have |
| `PayloadIds.TableIs` | types/payload.go:73-91 | The metadata fields are the seventeen of the table, with their types |
| `PayloadRoundTrip.MarshalThenExtract` | types/payload.go:884-965 | When no serialized key that is written repeats, and for any order of the two maps: extracting what was written succeeds, and the fresh payload stands for the same map (small unsigned memo values come back signed) if and only if the trace id and the root flag were consistent with the fields they come from |
| `PayloadRoundTrip.MarshalledReadsBack` | types/payload.go:884-965 | From bytes to bytes, when no serialized key that is written repeats: what MarshalMsg appends reads as a map to its end, with as many distinct keys as its header counts, and extracting it restores the map if and only if the ids were consistent |
| `PayloadRoundTrip.RootFlagIsLost` | types/payload.go:299-338 | A concrete payload, a parent id followed by an explicit root flag, whose flag does not survive the round trip |
| `PayloadRoundTrip.TraceIdComesBack` | types/payload.go:299-338 | A concrete payload, a named trace followed by an empty explicit trace id, whose missing trace id does not survive the round trip |
| `PayloadRoundTrip.WrittenKeysAreDistinct` | types/payload.go:898-950 | No key is written twice if and only if no serialized key repeats that is neither metadata nor memoized |
| `PayloadRoundTrip.MapReadsBack` | types/payload.go:952-964 | Reading the header and the pairs that it counts gives the pairs written and stops where they end |
| `PayloadRoundTrip.ExtractedIsConsistent` | types/payload.go:270-393 | What was extracted from data without an explicit root flag and trace id, with trace and parent names apart, is consistent, so that it survives the round trip |
| `PayloadRoundTrip.DedicatedFieldsAreTyped` | types/payload.go:95-208 | After extraction and any later calls, every dedicated field holds a value of its type and no default |
| `Transmit.SendBatch` | transmit/direct_transmit.go:376-439 | The requests hold, in order, exactly the acceptable events of the batch; each is not empty, within 5,000,000 bytes, and begins with an array header of its true size; a request ends only where the next event does not fit; all go to the destination of the batch; and the loop terminates |
| `Transmit.Pack` | transmit/direct_transmit.go:394-428 | Packs a prefix of the batch behind the reserved bytes, skipping what cannot be sent, and deals with at least one event |
| `Transmit.PatchHeader` | transmit/direct_transmit.go:436-439 | Writing the header into the end of the five reserved bytes and dropping the rest gives the header followed by the packed events |
| `Transmit.MarshalMsg` | transmit/direct_transmit.go:716-732 | Appends the three named fields, or fails with the payload |
| `Packing.EncodingReadsBack` | transmit/direct_transmit.go:716-732 | An event reads back as a map of three fields with the names time, samplerate and data and their values, for whoever knows how long the values are |
| `Packing.BodyCounts` | transmit/direct_transmit.go:436-438 | A body has fewer events than bytes, so that the count fits the header |
| `Msgpack.HeaderReadsBack` | transmit/direct_transmit.go:432-439 | A size header, short or of one, two or four bytes, reads back as the size, and reading stops behind it |
| `Transmit.DirectTransmission.EnqueueEvent` | transmit/direct_transmit.go:196-248 | Creates the batch of the destination if need be, appends the event, and hands the batch off when it is full |
| `Transmit.DirectTransmission.VisitStale` | transmit/direct_transmit.go:644-664 | Hands the batch of one key off exactly when it is not empty and its age when the tick began has reached the timeout |
| `Transmit.DirectTransmission.DispatchStaleBatches` | transmit/direct_transmit.go:626-667 | A tick visits every key of its snapshot once |
| `Transmit.DirectTransmission.Stop` | transmit/direct_transmit.go:291-309 | Hands every batch off that is not empty, and forgets them |
| `Batching.RunIsSafe` | transmit/direct_transmit.go:196-309 | Over every interleaving of enqueues, ticks and Stop: for each destination the batches handed off followed by the pending one are exactly the events enqueued, in order; each batch handed off is for one destination, not empty and at most the batch size |
| `Batching.TickLeavesNothingStale` | transmit/direct_transmit.go:626-667 | When a tick ends, no pending batch, whenever it was started, had reached the timeout when the tick began |
| `Batching.StopHandsOffEverything` | transmit/direct_transmit.go:291-309 | After Stop the batches handed off for a destination are exactly its events, in order |
| `BatchingCauses.HandOffs` | transmit/direct_transmit.go:196-309 | What each step of a run hands off, exactly, by the steps before it: an append, the batch of what was appended since its last hand-off when that reaches the maximum; a visit, that batch when its first event was appended at least the timeout before the tick began; Stop, every batch that is not empty; and no other step anything |
| `BatchingCauses.EveryHandOffHasACause` | transmit/direct_transmit.go:196-309 | Every batch that a run hands off was filled by its last append, or old enough for a tick, or flushed by Stop |
| `BatchingCauses.RunPending` | transmit/direct_transmit.go:229-236 | In every run the pending batch is what was appended since the last hand-off, and its start is when the first of that was |
| `Batching.VisitedTickEnds` | transmit/direct_transmit.go:626-667 | A tick that has visited every key of its snapshot can end |
| `Batching.EverythingIsSent` | transmit/direct_transmit.go:196-439 | Batching and splitting together: after Stop, the requests for a destination hold exactly the acceptable ones of its events, once each and in order |
| `Fanout.ReturnsAllOutputs` | generics/fanout.go:20-71 | For every schedule: when the call returns, the result is a permutation of the outputs of all items, every item was processed by exactly one worker, and every worker was cleaned up once |
| `Fanout.RunIsSafe` | generics/fanout.go:20-71 | In every reachable state the items are taken in channel order, each by one worker, and every output of an item taken is with a worker, in the channel, or collected |
| `Fanout.NeverStuck` | generics/fanout.go:20-71 | With at least one worker, or no items, some goroutine can take a step until the call returns |
| `Fanout.EveryStepCounts` | generics/fanout.go:20-71 | Every step of every goroutine leaves less work, so that no schedule goes on for ever |
| `Fanout.EndsReturned` | generics/fanout.go:20-71 | A schedule that cannot go on has returned if and only if there is a worker or no item; its length is bounded by the work at the start |
| `Fanout.NoWorkersNeverReturn` | generics/fanout.go:20-71 | Without workers a call with items never returns |
| `Fanout.CleanupIsLast` | generics/fanout.go:44-61 | After its cleanup a worker takes no item and is not cleaned up again |
| `FanoutResults.FanoutReturnsFilterMap` | generics/fanout.go:20-71 | Fanout returns a permutation of the filtered images of its input |
| `FanoutResults.FanoutToMapReturnsMap` | generics/fanout.go:98-153 | FanoutToMap returns exactly the map from the inputs to those of their images that pass |
| `FanoutResults.SplitIntoChunks` | generics/fanout.go:174-202 | For every length and chunk size the chunks concatenate to the input, none is empty, and all but the last have the full size |
| `FanoutResults.ChunkedEndsReturned` | generics/fanout.go:174-237 | A schedule of a chunked fan-out that cannot go on has returned if and only if the maximum allows a worker or the input is empty, for every length and chunk size |
| `FanoutResults.ChunksReturnUnion` | generics/fanout.go:174-237 | When workers agree on repeated keys, the result is exactly the filtered union of their maps on the chunks |
| `Sharder.DeterministicSharder.WhichShard` | sharder/deterministic.go:223-239 | Returns the first partition of highest weight in the sorted slice, which is an owner by the definition over the set of peers: the highest weight, the least hash among equals, or the least peer when every weight is 0 |
| `Sharder.DeterministicSharder.LoadPeerList` | sharder/deterministic.go:143-210 | Fails on an error and on an empty list, leaving everything as it was; else the peers are the sorted list, and the hashes its sorted partitions |
| `Sharder.DeterministicSharder.GetHashesFor` | sharder/deterministic.go:34-47 | The k-th partition hashes the address with the k-th seed of the chain |
| `Sharder.DeterministicSharder.PartitionsInRange` | sharder/deterministic.go:143-210 | After any reloads every partition names a peer, every peer has all of its partitions, and there are more than 50 in all |
| `Ownership.PartitionsFollowChain` | sharder/deterministic.go:34-47 | The k-th partition of a peer is the hash of its address with the k-th seed, where each seed is hashed from the one before; a weight is the hash of the trace id with a partition |
| `Ownership.FewestPartitions` | sharder/deterministic.go:180-190 | Every peer has the fewest partitions that make more than 50 in all |
| `Ownership.OwnerIsHeaviest` | sharder/deterministic.go:223-239 | The owner has a partition that no partition of any peer outweighs, and that has the least hash among those that weigh as much, unless nothing weighs anything |
| `Ownership.OwnerIsUnique` | sharder/deterministic.go:223-239 | When no two peers share a partition hash, the owner depends only on the set of peers and the partitions per peer |
| `Sharder.SamePeersSameOwner` | sharder/deterministic.go:143-239 | Nodes whose peer lists are permutations of one another have the same sorted slice of partitions and find the same owner for every trace, shared partition hashes or not, as the sort is a function of its input |
| `Ordering.SortedIsUnique` | sharder/deterministic.go:158-166 | Only one order of the same addresses is sorted |
| `Ownership.OnlyTheLeavingPeersTracesMove` | sharder/deterministic.go:223-239 | With unchanged partitions per peer, removing a peer moves only its own traces, and adding one moves traces only to it |
| `Ownership.AmbiguousExactly` | sharder/deterministic.go:183-192 | A trace has two owners by the definition if and only if its winning partition shares its hash with a partition of another peer: only then does the order of equal hashes decide |
| `Rules.RuleMatchesTrace` | sample/rules.go:145-190 | Equals: every condition holds on the trace, that is on its root span for has-root-span and on some span else, despite the early exits; no conditions match |
| `Rules.RuleMatchesSpanInTrace` | sample/rules.go:192-242 | Equals: some single span satisfies every condition, despite the early exits; absent conditions match, empty ones need a span |
| `Rules.ExtractValueFromSpan` | sample/rules.go:252-309 | Returns the first field that is there, in the span or the root span, a nested one, or the computed count; claiming that only the root was checked means that every span would give the same value |
| `Rules.GetSampleRate` | sample/rules.go:71-139 | The decision is that of the first rule that matches: the rate of the rule, in 64 bits, and kept exactly when it does not drop, has a positive rate and the random choice is 0; or what its downstream sampler says; or kept at rate 1 if there is no such sampler, or no rule matches |
| `RuleMeaning.ReasonsName` | sample/rules.go:71-139 | The reason of a decision names the scope and the rule, and the reason of the downstream sampler, if any |
| `RuleMeaning.SpanScopeIsStricter` | sample/rules.go:145-242 | A trace that matches in span scope matches in trace scope, also for rules with has-root-span, which no span satisfies |
| `RuleMeaning.OperatorsAgree` | sample/rules.go:315-465 | Of values that compare exactly one of LT, EQ and GT holds, LTE, GTE and NEQ follow from these, and swapping the sides swaps LT and GT; of others none of the six holds; numbers compare by value across their types, texts by the first place where they differ, false before true, nil before all else; NEQ is the contrary of EQ if and only if the values compare |
| `RuleMeaning.ExistenceIs` | sample/rules.go:315-357 | The operators for existence and absence tell whether there is a value; without one no comparison holds, and an unknown operator never does |
| `RuleMeaning.ValueIs` | sample/rules.go:252-309 | A condition looks at the number of spans; else at the first of its fields that is there; else at the first nested path that leads anywhere, in the root span or the span itself |
| `RuleMeaning.FieldsAre` | sample/rules.go:252-290 | A name with the root prefix means that field of the root span, if there is one, and another name the field of the span |
| `RuleMeaning.ScopesMean` | sample/rules.go:82-242 | A rule in span scope matches if one span satisfies all conditions; in trace scope, the default, if each condition is satisfied by some span or is true of there being a root span; without conditions, or in an unknown scope, always |
| `RuleMeaning.CompareSwaps` | sample/rules.go:362-465 | Swapping the operands turns less into more and back, and comparability is symmetric |
| `RuleMeaning.CompareChains` | sample/rules.go:362-465 | Less than is transitive, across numbers, strings, truth values and nil |
| `JsonToMsgpack.AppendJSONValue` | types/json_to_msgp.go:36-56 | Appends the encoding of the tree and leaves what was in the buffer |
| `JsonToMsgpack.AppendJSONObject` | types/json_to_msgp.go:58-75 | Appends the header and every key and value, in order |
| `JsonToMsgpack.AppendJSONArray` | types/json_to_msgp.go:77-93 | Appends the header and every item, in order |
| `JsonToMsgpack.RoundTrip` | types/json_to_msgp.go:36-93 | Reading the bytes of a tree gives back the tree and stops exactly at their end if and only if every string, array and object has fewer than 2^32 members |
| `JsonToMsgpack.KnownBytes` | types/json_to_msgp.go:36-93 | Small trees of every kind, and headers at the boundaries of their forms, have the bytes that MessagePack gives them |
| `JsonToMsgpack.DecodedFits` | types/json_to_msgp.go:36-93 | No bytes read as a tree with a larger member, so that truncated headers always lose data |
| `Msgpack.FormatsDiffer` | types/json_to_msgp.go:44-74 | The headers of strings, arrays and maps are told apart by their first byte |

## Left out

- Stress relief, trace keys, memory sizes and the construction of the `Matches` predicates of rules: smaller algorithms beside the cores above. A `Matches` predicate is an input of the rule model.
- `ProcessSpanImmediately` and the shutdown of the collector: the first can record a second decision for a live trace and the second does not flush the cache, so that neither keeps the invariants.
- Kept reasons, rule reasons and other decorations of spans, metrics, logs, self-instrumentation, health checks.
- `CacheImpact`: the order of an early ejection is an input.
- The sampler, wyhash, the cuckoo filter, the keyed priority queue, zstd, fastjson and gjson: an oracle, a function, a set without false negatives, a map whose pop returns a minimum, nothing, a JSON tree, a function.
- HTTP requests, responses, retries and URL construction of `sendBatch`: a request of the model is what would be attempted.
- Sharing of a kept record through the pointer that the LRU cache returns: records are values here, and the write through the pointer is `Lru.LruCache.WriteThrough`.
- The eviction callback, lazy initialisation and expiry of the vendored list: not used by the cache of decisions.
- Bytes of serialized payloads: a payload is the sequence of its pairs, and values that cannot be decoded are not modelled. Floats are real numbers, without NaN or rounding; Go's `int` and `int64` are one type.
- `ExtractMetadata` over a memo map, `All`, `MarshalJSON`: the extraction of serialized data is modelled.
- `SentCache.CuckooSentCache.constructor`: the refusal of a size below 1 is modelled in `SentCache.CuckooSentCache.Resize`; a constructor cannot fail.
- `PayloadRoundTrip.MarshalThenExtract`: serialized keys that are written are assumed not to repeat; `PayloadRoundTrip.WrittenKeysAreDistinct` says when. With a repeated key the pairs are written again as they are, and the ids of the fresh payload depend on which of them comes first.
- `PayloadRefinement.PayloadRefinesMap`: starts from a payload that does not hide the key, which `PayloadRefinement.ExtractionIsHonest` characterises. For metadata fields the condition on repeated keys is sufficient, and not shown to be necessary: a repeated value of the wrong type is ignored.
- `PayloadRefinement.ExtractionIsHonest`: with repeated keys one direction is proved, in `PayloadRefinement.UntakenIsHonest`; a key that was memoized first and taken for an id later is not hidden.
- The sender transmits a trace in one step, and so do the theorems about it; the program enqueues it span by span, with steps of the worker in between (`collect/collect.go:694-739`). A span that has been enqueued counts as handed over until its trace is done.
- `Transmit.PatchHeader`: the buffer is a sequence, so that the reuse of pooled buffers is not captured.
- `Fanout.ReturnsAllOutputs`: every worker makes the same outputs of an item; workers that differ are not modelled.
- `Traces.Trace.AddSpan`: the reset of the memoized cache impact and the environment of the trace are left out with the order of early ejections and the choice of the sampler.
- `Payload.Payload.ExtractCriticalFieldsFromBytes`: malformed headers and keys and values that cannot be decoded are not modelled; the two failures of well-formed values are.
- `Payload.MsgpPayloadMapIter.NextKey`: the field type that it also returns has no reader; decoding errors are not modelled.
- `RuleMeaning.OperatorsAgree`: integers beyond 2^53 are rounded by the program before they are compared with floats.
- `Ownership.OnlyTheLeavingPeersTracesMove`: distinct partition hashes and unchanged partitions per peer are assumed; how many partitions a peer has depends on the number of peers.
- `Sharder.DeterministicSharder.LoadPeerList`: finding the own address in the list, and the callbacks, are not modelled.
