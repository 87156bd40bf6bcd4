/** What extraction reads: the trace id and the root flag by the positions of the pairs that they come from, and which
    data it fails on. */
module PayloadIds {
  import opened Options
  import opened Fields
  import opened PayloadSpec
  import opened PayloadRefinement

  /** The metadata fields and their types, by name. */
  const TABLE: seq<(string, Kind)> := [
    ("meta.signal_type", StringKind), ("meta.trace_id", StringKind), ("meta.annotation_type", StringKind),
    ("meta.span_event_count", Int64Kind), ("meta.span_link_count", Int64Kind), ("meta.span_count", Int64Kind),
    ("meta.event_count", Int64Kind), ("meta.refinery.root", BoolKind), ("meta.refinery.probe", BoolKind),
    ("meta.refinery.incoming_user_agent", StringKind), ("meta.refinery.local_hostname", StringKind),
    ("meta.stressed", BoolKind), ("meta.refinery.reason", StringKind), ("meta.refinery.send_reason", StringKind),
    ("meta.refinery.original_sample_rate", Int64Kind), ("meta.refinery.final_sample_rate", Int64Kind),
    ("meta.refinery.sample_key", StringKind)]

  /** A pair that is the field itself, with a value of its type. */
  predicate IsTraceId(p: Pair) {
    p.0 == "meta.trace_id" && p.1.Str?
  }

  predicate IsRootFlag(p: Pair) {
    p.0 == "meta.refinery.root" && p.1.Bool?
  }

  /** A text, not empty, of a field with one of the names, unless it is a metadata field of type string. */
  predicate IsNamed(p: Pair, names: seq<string>) {
    p.0 in names && p.1.Str? && p.1.s != "" && KindOf(p.0) != Some(StringKind)
  }

  /** The e-th pair is the last that is the trace id; -1 when none is. */
  ghost predicate LastTraceId(data: seq<Pair>, e: int) {
    && -1 <= e < |data| && (e >= 0 ==> IsTraceId(data[e])) && forall j :: e < j < |data| ==> !IsTraceId(data[j])
  }

  ghost predicate LastRootFlag(data: seq<Pair>, e: int) {
    && -1 <= e < |data| && (e >= 0 ==> IsRootFlag(data[e])) && forall j :: e < j < |data| ==> !IsRootFlag(data[j])
  }

  /** The f-th pair is the first behind e that names the trace; |data| when none does. */
  ghost predicate FirstNamed(data: seq<Pair>, names: seq<string>, e: int, f: int) {
    && -1 <= e < f <= |data| && (f < |data| ==> IsNamed(data[f], names))
    && forall j :: e < j < f ==> !IsNamed(data[j], names)
  }

  /** The trace id that pairs give: the last one that is explicit, unless that is empty; else that of the first field,
      behind it, that names the trace. */
  ghost predicate TraceIdIs(data: seq<Pair>, names: Names, v: Option<Value>) {
    exists e, f :: LastTraceId(data, e) && FirstNamed(data, names.trace, e, f) && v == TraceIdAt(data, e, f)
  }

  function TraceIdAt(data: seq<Pair>, e: int, f: int): Option<Value>
    requires -1 <= e < |data| && f >= 0
  {
    if e >= 0 && data[e].1.Str? && data[e].1.s != "" then Some(data[e].1)
    else if f < |data| then Some(data[f].1)
    else None
  }

  lemma PositionsExist(data: seq<Pair>, names: seq<string>) returns (e: int, f: int)
    ensures LastTraceId(data, e) && FirstNamed(data, names, e, f)
  {
    e := |data| - 1;
    while e >= 0 && !IsTraceId(data[e])
      invariant -1 <= e < |data| && forall j :: e < j < |data| ==> !IsTraceId(data[j])
    {
      e := e - 1;
    }
    f := e + 1;
    while f < |data| && !IsNamed(data[f], names)
      invariant e < f <= |data| && forall j :: e < j < f ==> !IsNamed(data[j], names)
    {
      f := f + 1;
    }
  }

  /** Only one answer fits. */
  lemma TraceIdIsUnique(data: seq<Pair>, names: Names, e: int, f: int, v: Option<Value>)
    requires LastTraceId(data, e) && FirstNamed(data, names.trace, e, f) && TraceIdIs(data, names, v)
    ensures v == TraceIdAt(data, e, f)
  {
    var e', f' :| LastTraceId(data, e') && FirstNamed(data, names.trace, e', f') && v == TraceIdAt(data, e', f');
    hide IsTraceId, IsNamed;
    assert (e >= 0 ==> IsTraceId(data[e])) && (e' >= 0 ==> IsTraceId(data[e']));
    assert (f < |data| ==> IsNamed(data[f], names.trace)) && (f' < |data| ==> IsNamed(data[f'], names.trace));
  }

  /** What one more pair makes of the trace id. */
  function NextTraceId(v: Option<Value>, p: Pair, names: Names): Option<Value> {
    if IsTraceId(p) then if p.1.s != "" then Some(p.1) else None
    else if v.None? && IsNamed(p, names.trace) then Some(p.1)
    else v
  }

  lemma TraceIdSnoc(data: seq<Pair>, p: Pair, names: Names, v: Option<Value>)
    requires TraceIdIs(data, names, v)
    ensures TraceIdIs(data + [p], names, NextTraceId(v, p, names))
  {
    var e, f :| LastTraceId(data, e) && FirstNamed(data, names.trace, e, f) && v == TraceIdAt(data, e, f);
    var n, more := |data|, data + [p];
    hide IsNamed;
    assert forall j :: 0 <= j < n ==> more[j] == data[j];
    if IsTraceId(p) {
      assert LastTraceId(more, n) && FirstNamed(more, names.trace, n, n + 1);
      assert TraceIdAt(more, n, n + 1) == NextTraceId(v, p, names);
    } else {
      var f' := if f < n || IsNamed(p, names.trace) then f else n + 1;
      assert LastTraceId(more, e) && FirstNamed(more, names.trace, e, f');
      assert TraceIdAt(more, e, f') == NextTraceId(v, p, names) by {
        assert e >= 0 ==> IsTraceId(data[e]);
        assert f < n ==> IsNamed(data[f], names.trace);
        SomeIsKnown(data, names, e, f);
      }
    }
  }

  lemma SomeIsKnown(data: seq<Pair>, names: Names, e: int, f: int)
    requires LastTraceId(data, e) && FirstNamed(data, names.trace, e, f)
    ensures TraceIdAt(data, e, f).None? <==> (e >= 0 ==> data[e].1.s == "") && f == |data|
  {
  }

  lemma StepTraceId(scan: Scan, p: Pair, names: Names)
    requires scan.ok && scan.Step(p, names).ok
    ensures SlotOf(scan.Step(p, names).slots, TRACE_ID) == NextTraceId(SlotOf(scan.slots, TRACE_ID), p, names)
  {
    SpecialFields();
    hide StringField, BoolField, Int64Field;
  }

  lemma NoTraceIdYet(names: Names)
    ensures TraceIdIs([], names, None) && SlotOf(FRESH.slots, TRACE_ID) == None
  {
    SpecialFields();
    hide KindOf;
    assert LastTraceId([], -1) && FirstNamed([], names.trace, -1, 0) && TraceIdAt([], -1, 0) == None;
  }

  lemma {:induction false} ScannedTraceId(data: seq<Pair>, names: Names)
    requires FRESH.Steps(data, names).ok
    ensures TraceIdIs(data, names, SlotOf(FRESH.Steps(data, names).slots, TRACE_ID))
    decreases |data|
  {
    hide Scan.Step, TraceIdIs, NextTraceId;
    if data == [] {
      NoTraceIdYet(names);
    } else {
      var n := |data| - 1;
      var scan := FRESH.Steps(data[..n], names);
      FailureStays(scan, data[n], names);
      ScannedTraceId(data[..n], names);
      StepTraceId(scan, data[n], names);
      TraceIdSnoc(data[..n], data[n], names, SlotOf(scan.slots, TRACE_ID));
      assert data == data[..n] + [data[n]];
    }
  }

  /** The trace id of an extracted payload is that of the last pair that is the metadata field itself, unless that is
      empty; else that of the first pair, behind it, that names the trace with a text that is not empty; else there is
      none. */
  lemma ExtractedTraceId(data: seq<Pair>, names: Names, e: int, f: int)
    requires Unmarshalled(EMPTY, data, names).1
    requires LastTraceId(data, e) && FirstNamed(data, names.trace, e, f)
    ensures Unmarshalled(EMPTY, data, names).0.At("meta.trace_id")
            == if e >= 0 && data[e].1.s != "" then Some(data[e].1)
               else if f < |data| then Some(data[f].1)
               else None
  {
    SpecialFields();
    hide KindOf;
    ScannedTraceId(data, names);
    TraceIdIsUnique(data, names, e, f, SlotOf(FRESH.Steps(data, names).slots, TRACE_ID));
    assert "meta.trace_id" == TRACE_ID;
  }

  /** A field that names a parent, with a text that is not empty, is read as one, unless it is taken for the trace id,
      which it is when it names the trace as well and none is known from the pairs before it. */
  ghost predicate ReadAsParent(data: seq<Pair>, j: int, names: Names)
    requires 0 <= j < |data|
  {
    && IsNamed(data[j], names.parent)
    && (data[j].0 in names.trace ==> exists v: Value :: TraceIdIs(data[..j], names, Some(v)))
  }

  /** The root flag that the pairs give, but for logs: the last explicit one, and false with a parent behind it; without
      an explicit one, whether there is no parent. */
  ghost predicate RootIs(data: seq<Pair>, names: Names, v: Value) {
    exists e :: LastRootFlag(data, e) && v == RootAt(data, names, e)
  }

  ghost function RootAt(data: seq<Pair>, names: Names, e: int): Value
    requires -1 <= e < |data|
  {
    if exists j :: e < j < |data| && ReadAsParent(data, j, names) then Bool(false)
    else if e >= 0 then data[e].1
    else Bool(true)
  }

  lemma RootIsUnique(data: seq<Pair>, names: Names, e: int, v: Value)
    requires LastRootFlag(data, e) && RootIs(data, names, v)
    ensures v == RootAt(data, names, e)
  {
    hide RootAt, IsRootFlag;
    var e' :| LastRootFlag(data, e') && v == RootAt(data, names, e');
    assert (e >= 0 ==> IsRootFlag(data[e])) && (e' >= 0 ==> IsRootFlag(data[e']));
  }

  ghost function NextRoot(v: Value, data: seq<Pair>, p: Pair, names: Names): Value {
    if IsRootFlag(p) then p.1 else if ReadAsParent(data + [p], |data|, names) then Bool(false) else v
  }

  lemma ParentSnoc(data: seq<Pair>, p: Pair, j: int, names: Names)
    requires 0 <= j < |data|
    ensures ReadAsParent(data + [p], j, names) == ReadAsParent(data, j, names)
  {
    assert (data + [p])[..j] == data[..j] && (data + [p])[j] == data[j];
  }

  lemma RootSnoc(data: seq<Pair>, p: Pair, names: Names, v: Value)
    requires RootIs(data, names, v)
    ensures RootIs(data + [p], names, NextRoot(v, data, p, names))
  {
    var e :| LastRootFlag(data, e) && v == RootAt(data, names, e);
    var n, more := |data|, data + [p];
    hide ReadAsParent;
    assert forall j :: 0 <= j < n ==> more[j] == data[j];
    forall j | 0 <= j < n ensures ReadAsParent(more, j, names) == ReadAsParent(data, j, names) {
      ParentSnoc(data, p, j, names);
    }
    var e' := if IsRootFlag(p) then n else e;
    assert LastRootFlag(more, e') && RootAt(more, names, e') == NextRoot(v, data, p, names);
  }

  lemma StepRoot(scan: Scan, data: seq<Pair>, p: Pair, names: Names)
    requires scan.ok && scan.Step(p, names).ok && ROOT in scan.slots
    requires TRACE_ID in scan.slots <==> exists v: Value :: TraceIdIs(data, names, Some(v))
    ensures ROOT in scan.Step(p, names).slots
    ensures scan.Step(p, names).slots[ROOT] == NextRoot(scan.slots[ROOT], data, p, names)
  {
    SpecialFields();
    hide StringField, BoolField, Int64Field, TraceIdIs;
    assert (data + [p])[..|data|] == data && (data + [p])[|data|] == p;
  }

  lemma KnownIsSlot(data: seq<Pair>, names: Names)
    requires FRESH.Steps(data, names).ok
    ensures TRACE_ID in FRESH.Steps(data, names).slots <==> exists v: Value :: TraceIdIs(data, names, Some(v))
  {
    ScannedTraceId(data, names);
    var slots := FRESH.Steps(data, names).slots;
    if v: Value :| TraceIdIs(data, names, Some(v)) {
      var e, f := PositionsExist(data, names.trace);
      TraceIdIsUnique(data, names, e, f, Some(v));
      TraceIdIsUnique(data, names, e, f, SlotOf(slots, TRACE_ID));
    }
  }

  lemma RootAtStart(names: Names)
    ensures ROOT in FRESH.slots && RootIs([], names, FRESH.slots[ROOT])
  {
    SpecialFields();
    hide KindOf;
    assert LastRootFlag([], -1) && RootAt([], names, -1) == Bool(true);
  }

  lemma {:induction false} ScannedRoot(data: seq<Pair>, names: Names)
    requires FRESH.Steps(data, names).ok
    ensures var slots := FRESH.Steps(data, names).slots; ROOT in slots && RootIs(data, names, slots[ROOT])
    decreases |data|
  {
    hide Scan.Step, RootIs, NextRoot, TraceIdIs;
    if data == [] {
      RootAtStart(names);
    } else {
      var n := |data| - 1;
      var scan := FRESH.Steps(data[..n], names);
      FailureStays(scan, data[n], names);
      ScannedRoot(data[..n], names);
      KnownIsSlot(data[..n], names);
      StepRoot(scan, data[..n], data[n], names);
      RootSnoc(data[..n], data[n], names, scan.slots[ROOT]);
      assert data == data[..n] + [data[n]];
    }
  }

  /** The root flag of an extracted payload is unset in a log; else it is that of the last pair that is the flag itself,
      or true, and false when a field behind that is read as a parent id. */
  lemma ExtractedRoot(data: seq<Pair>, names: Names, e: int)
    requires Unmarshalled(EMPTY, data, names).1 && LastRootFlag(data, e)
    ensures var p := Unmarshalled(EMPTY, data, names).0;
      p.At("meta.refinery.root")
      == if p.At("meta.signal_type") == Some(Str("log")) then None
         else if exists j :: e < j < |data| && ReadAsParent(data, j, names) then Some(Bool(false))
         else if e >= 0 then Some(data[e].1)
         else Some(Bool(true))
  {
    SpecialFields();
    hide KindOf, ReadAsParent, Scan.Step;
    ScannedRoot(data, names);
    RootIsUnique(data, names, e, FRESH.Steps(data, names).slots[ROOT]);
    assert "meta.refinery.root" == ROOT && "meta.signal_type" == SIGNAL_TYPE;
  }

  /** A metadata field that cannot be read: a binary string, or a number beyond 63 bits. */
  predicate Unreadable(p: Pair) {
    match KindOf(p.0)
    case Some(StringKind) => p.1.Bin?
    case Some(Int64Kind) => p.1.Uint64? && p.1.u > 0x7fff_ffff_ffff_ffff
    case _ => false
  }

  lemma StepFails(scan: Scan, p: Pair, names: Names)
    ensures scan.Step(p, names).ok <==> scan.ok && !Unreadable(p)
  {
    hide StringField, BoolField, Int64Field, Assigned;
  }

  lemma {:induction false} ScanFails(data: seq<Pair>, names: Names)
    ensures FRESH.Steps(data, names).ok <==> forall i :: 0 <= i < |data| ==> !Unreadable(data[i])
    decreases |data|
  {
    hide Scan.Step, Unreadable;
    if data != [] {
      var n := |data| - 1;
      ScanFails(data[..n], names);
      StepFails(FRESH.Steps(data[..n], names), data[n], names);
      assert forall i :: 0 <= i < n ==> data[..n][i] == data[i];
    }
  }

  /** Extraction of well-formed data fails exactly when a metadata field cannot be read, and keeps the data and marks
      the payload as extracted exactly when it succeeds. */
  lemma FailsExactly(data: seq<Pair>, names: Names)
    ensures var (p, ok) := Unmarshalled(EMPTY, data, names);
      && (ok <==> forall i :: 0 <= i < |data| ==> !Unreadable(data[i]))
      && p.extracted == ok && p.data == (if ok then data else []) && p.isEmpty == (data == [])
  {
    hide KindOf, Unreadable, Scan.Step;
    ScanFails(data, names);
  }

  /** The metadata fields are those of the table, with their types. */
  lemma TableIs(key: string, kind: Kind)
    ensures KindOf(key) == Some(kind) <==> (key, kind) in TABLE
  {
  }

  /** When the names are apart, the sampling keys that are listed as missing are those that the data does not have, and
      the others are memoized. */
  lemma MissingExactly(data: seq<Pair>, names: Names, key: string)
    requires DistinctKeys(data) && NamesApart(names) && Unmarshalled(EMPTY, data, names).1
    requires key in names.sampling && !IsMeta(key)
    ensures var p := Unmarshalled(EMPTY, data, names).0;
      key in p.missing <==> Find(data, key).None?
  {
    hide KindOf, Scan.Step, Rooted;
    var scan := FRESH.Steps(data, names);
    assert data[..|data|] == data;
    FindsOnly(data, key);
    FoundKeys(FRESH, data, |data|, names);
    SeenSamplingKeys(FRESH, data, |data|, names);
    MemoIsData(FRESH, data, |data|, names);
    if Find(data, key).None? {
      DistinctFit(scan.found, Elements(names.sampling) - {key});
      ElementsFit(names.sampling);
    }
  }
}
