/** types/payload.go: the table of metadata fields, and values as they are read from and written to
    MessagePack. */
module Fields {
  import opened Options

  const MAX_INT64 := 0x7fff_ffff_ffff_ffff

  /** What Go holds in an `any`. Foreign values have no MessagePack form. */
  datatype Value =
    | Nil
    | Bool(b: bool)
    | Int64(i: int)
    | Uint64(u: nat)
    | Float(r: real)
    | Str(s: string)
    | Bin(bytes: seq<int>)
    | Other(tag: int)
    | Foreign(id: int)

  type Pair = (string, Value)

  datatype Kind = StringKind | BoolKind | Int64Kind

  const TRACE_ID := "meta.trace_id"
  const SIGNAL_TYPE := "meta.signal_type"
  const ROOT := "meta.refinery.root"

  predicate StringField(key: string) {
    key in {SIGNAL_TYPE, TRACE_ID, "meta.annotation_type", "meta.refinery.incoming_user_agent",
            "meta.refinery.local_hostname", "meta.refinery.reason", "meta.refinery.send_reason",
            "meta.refinery.sample_key"}
  }

  predicate BoolField(key: string) {
    key in {"meta.refinery.probe", ROOT, "meta.stressed"}
  }

  predicate Int64Field(key: string) {
    key in {"meta.span_event_count", "meta.span_link_count", "meta.span_count", "meta.event_count",
            "meta.refinery.original_sample_rate", "meta.refinery.final_sample_rate"}
  }

  /** The metadata fields and their types. */
  function KindOf(key: string): Option<Kind> {
    if StringField(key) then Some(StringKind)
    else if BoolField(key) then Some(BoolKind)
    else if Int64Field(key) then Some(Int64Kind)
    else None
  }

  predicate IsMeta(key: string) {
    KindOf(key).Some?
  }

  predicate HasMetaPrefix(key: string) {
    |key| >= 5 && key[..5] == "meta."
  }

  lemma StringFieldsHaveThePrefix(key: string)
    requires StringField(key)
    ensures HasMetaPrefix(key)
  {
    assert key[0] == 'm' && key[1] == 'e' && key[2] == 't' && key[3] == 'a' && key[4] == '.';
  }

  lemma OtherFieldsHaveThePrefix(key: string)
    requires BoolField(key) || Int64Field(key)
    ensures HasMetaPrefix(key)
  {
    assert key[0] == 'm' && key[1] == 'e' && key[2] == 't' && key[3] == 'a' && key[4] == '.';
  }

  /** The test that Get and Exists make before they look in the table loses no metadata field. */
  lemma MetaKeysHaveThePrefix(key: string)
    requires IsMeta(key)
    ensures HasMetaPrefix(key)
  {
    hide StringField, BoolField, Int64Field, HasMetaPrefix;
    if StringField(key) {
      StringFieldsHaveThePrefix(key);
    } else {
      OtherFieldsHaveThePrefix(key);
    }
  }

  lemma SpecialFields()
    ensures KindOf(TRACE_ID) == Some(StringKind) && KindOf(SIGNAL_TYPE) == Some(StringKind)
    ensures KindOf(ROOT) == Some(BoolKind)
    ensures TRACE_ID != SIGNAL_TYPE && TRACE_ID != ROOT && SIGNAL_TYPE != ROOT
  {
    assert |TRACE_ID| == 13 && |SIGNAL_TYPE| == 16 && |ROOT| == 18;
  }

  /** Dedicated fields by name. A field with its default, the empty string or 0 or an unset flag, is left out:
      the program cannot tell these from an absent field. */
  type Slots = map<string, Value>

  /** Assigning a dedicated field: ignored when the type is wrong. */
  function Assigned(slots: Slots, key: string, v: Value): Slots {
    match (KindOf(key), v)
    case (Some(StringKind), Str(s)) => if s == "" then slots - {key} else slots[key := v]
    case (Some(Int64Kind), Int64(i)) => if i == 0 then slots - {key} else slots[key := v]
    case (Some(BoolKind), Bool(_)) => slots[key := v]
    case _ => slots
  }

  predicate SlotsTyped(slots: Slots) {
    forall key :: key in slots ==> SlotTyped(key, slots[key])
  }

  predicate SlotTyped(key: string, v: Value) {
    match (KindOf(key), v)
    case (Some(StringKind), Str(s)) => s != ""
    case (Some(Int64Kind), Int64(i)) => i != 0
    case (Some(BoolKind), Bool(_)) => true
    case _ => false
  }

  /** The types on the wire that are read into a dedicated field. */
  predicate TypeIsCorrect(kind: Kind, v: Value) {
    match kind
    case StringKind => v.Str? || v.Bin?
    case BoolKind => v.Bool?
    case Int64Kind => v.Int64? || v.Uint64?
  }

  /** Reading a value of an accepted type: a binary string and a number beyond 63 bits fail, and clear
      the field. */
  function Read(slots: Slots, key: string, v: Value): (r: (Slots, bool)) {
    match v
    case Bin(_) => (slots - {key}, false)
    case Uint64(u) => if u > MAX_INT64 then (slots - {key}, false) else (Assigned(slots, key, Int64(u)), true)
    case _ => (Assigned(slots, key, v), true)
  }

  /** What comes back of a value that is written and read: a small unsigned number is written as a fixint, which
      reads as signed. */
  function Wire(v: Value): Value {
    if v.Uint64? && v.u < 128 then Int64(v.u) else v
  }

  lemma ElementsSnoc(s: seq<string>, k: string)
    ensures Elements(s + [k]) == Elements(s) + {k}
  {
  }

  function Keys(pairs: seq<Pair>): seq<string> {
    seq(|pairs|, i requires 0 <= i < |pairs| => pairs[i].0)
  }

  /** The first pair with the key. */
  function Find(pairs: seq<Pair>, key: string): Option<Value> {
    if pairs == [] then None
    else if pairs[0].0 == key then Some(pairs[0].1)
    else Find(pairs[1..], key)
  }
}

/** The specification of the class Payload: its fields as one value, and what its methods do to them. */
module PayloadSpec {
  import opened Options
  import opened Fields

  /** The names that extraction looks for. */
  datatype Names = Names(trace: seq<string>, parent: seq<string>, sampling: seq<string>)

  datatype Contents = Contents(data: seq<Pair>, memo: map<string, Value>, missing: set<string>, slots: Slots,
                               isEmpty: bool, extracted: bool)
  {
    /** The map that a payload stands for: metadata, over memoized fields, over the serialized pairs. */
    function At(key: string): Option<Value> {
      if IsMeta(key) then (if key in slots then Some(slots[key]) else None)
      else if key in memo then Some(memo[key])
      else Find(data, key)
    }

    /** What Get finds: a field listed as missing is not looked for among the pairs. */
    function Seen(key: string): Option<Value> {
      if !IsMeta(key) && key !in memo && key in missing then None else At(key)
    }

    function Set(key: string, v: Value): Contents {
      if IsMeta(key) then this.(slots := Assigned(slots, key, v)) else this.(memo := memo[key := v])
    }

    function ToFind(keys: seq<string>): set<string> {
      set k | k in keys && k !in missing && k !in memo
    }

    /** Memoizes pairs with keys to find until n of them have been found. */
    function Pulled(toFind: set<string>, pairs: seq<Pair>, n: nat): Contents
      decreases |pairs|
    {
      if n == 0 || pairs == [] then this
      else if pairs[0].0 in toFind then Set(pairs[0].0, pairs[0].1).Pulled(toFind, pairs[1..], n - 1)
      else Pulled(toFind, pairs[1..], n)
    }

    function Memoized(keys: seq<string>): Contents {
      var toFind := ToFind(keys);
      if toFind == {} then this
      else
        var p := Pulled(toFind, data, |toFind|);
        p.(missing := p.missing + set k | k in toFind && k !in p.memo)
    }
  }

  const EMPTY := Contents([], map[], {}, map[], false, false)

  predicate ReadsAsMeta(p: Pair) {
    IsMeta(p.0) && TypeIsCorrect(KindOf(p.0).value, p.1)
  }

  predicate NamesTrace(slots: Slots, p: Pair, names: Names) {
    !ReadsAsMeta(p) && p.1.Str? && TRACE_ID !in slots && p.0 in names.trace
  }

  predicate NamesParent(slots: Slots, p: Pair, names: Names) {
    !ReadsAsMeta(p) && p.1.Str? && !(TRACE_ID !in slots && p.0 in names.trace) && p.0 in names.parent
  }

  /** Extraction in progress: `found` are the sampling keys memoized so far. */
  datatype Scan = Scan(slots: Slots, memo: map<string, Value>, found: seq<string>, ok: bool)
  {
    predicate Memoizes(p: Pair, names: Names) {
      && ok && !ReadsAsMeta(p) && !NamesTrace(slots, p, names) && !NamesParent(slots, p, names)
      && |found| < |names.sampling| && p.0 in names.sampling && p.0 !in memo
    }

    function Step(p: Pair, names: Names): Scan {
      if !ok then this
      else if ReadsAsMeta(p) then var (slots', ok') := Read(slots, p.0, p.1); this.(slots := slots', ok := ok')
      else if NamesTrace(slots, p, names) then this.(slots := Assigned(slots, TRACE_ID, p.1))
      else if NamesParent(slots, p, names) then
        (if p.1.s != "" then this.(slots := Assigned(slots, ROOT, Bool(false))) else this)
      else if Memoizes(p, names) then
        if IsMeta(p.0) then this.(slots := Assigned(slots, p.0, p.1), found := found + [p.0])
        else this.(memo := memo[p.0 := p.1], found := found + [p.0])
      else this
    }

    function Steps(pairs: seq<Pair>, names: Names): Scan {
      if pairs == [] then this else Steps(pairs[..|pairs| - 1], names).Step(pairs[|pairs| - 1], names)
    }
  }

  function Rooted(slots: Slots): Slots {
    if ROOT in slots then slots else Assigned(slots, ROOT, Bool(true))
  }

  predicate IsLog(slots: Slots) {
    SIGNAL_TYPE in slots && slots[SIGNAL_TYPE] == Str("log")
  }

  /** Taking in serialized data: a failure leaves the fields that were read and no data. */
  function Unmarshalled(p: Contents, data: seq<Pair>, names: Names): (r: (Contents, bool)) {
    var start := p.(slots := Rooted(p.slots), isEmpty := p.isEmpty || data == []);
    var scan := Scan(start.slots, start.memo, [], true).Steps(data, names);
    var q := start.(slots := scan.slots, memo := scan.memo);
    if !scan.ok then (q, false)
    else
      (q.(data := data, extracted := true,
          missing := if |scan.found| < |names.sampling| then p.missing + set k | k in names.sampling && k !in scan.memo
                     else p.missing,
          slots := if IsLog(scan.slots) then scan.slots - {ROOT} else scan.slots), true)
  }

  /** The pairs that MarshalMsg writes, for an order of the two maps. */
  function Written(p: Contents, metaOrder: seq<string>, memoOrder: seq<string>): seq<Pair>
    requires (forall k :: k in metaOrder ==> k in p.slots) && forall k :: k in memoOrder ==> k in p.memo
  {
    FromSlots(p.slots, metaOrder) + FromMemo(p.memo, memoOrder) + Kept(p.data, p.memo)
  }

  function FromSlots(slots: Slots, order: seq<string>): seq<Pair>
    requires forall k :: k in order ==> k in slots
  {
    seq(|order|, i requires 0 <= i < |order| => (order[i], slots[order[i]]))
  }

  function FromMemo(memo: map<string, Value>, order: seq<string>): seq<Pair>
    requires forall k :: k in order ==> k in memo
  {
    seq(|order|, i requires 0 <= i < |order| => (order[i], Wire(memo[order[i]])))
  }

  /** The serialized pairs that no memoized or dedicated field replaces. */
  function Kept(pairs: seq<Pair>, memo: map<string, Value>): seq<Pair> {
    if pairs == [] then []
    else
      var rest := Kept(pairs[..|pairs| - 1], memo);
      var p := pairs[|pairs| - 1];
      if p.0 in memo || IsMeta(p.0) then rest else rest + [p]
  }

  /** The memoized fields that are written as such. */
  function Plain(memo: map<string, Value>): set<string> {
    set k | k in memo && !IsMeta(k)
  }

  /** A buffer: bytes, and pairs as they are serialized. */
  datatype Cell = Byte(b: nat) | Serialized(p: Pair)

  const MAP16 := 0xde
  const MAP16_MAX := 65535

  /** A memoized field cannot be written. */
  ghost predicate HasForeign(memo: map<string, Value>) {
    exists k :: k in Plain(memo) && memo[k].Foreign?
  }

  function Header(n: nat): seq<Cell> {
    [Byte(MAP16), Byte(n / 256), Byte(n % 256)]
  }

  /** Orders of the two maps that a marshalling may go through. */
  ghost predicate Orders(p: Contents, metaOrder: seq<string>, memoOrder: seq<string>) {
    IsOrder(metaOrder, p.slots.Keys) && IsOrder(memoOrder, Plain(p.memo))
  }

  function WrittenCount(p: Contents): nat {
    |p.slots| + |Plain(p.memo)| + |Kept(p.data, p.memo)|
  }

  /** The buffer with the payload appended: a header that counts the pairs, and the pairs, for some orders. */
  ghost predicate IsMarshalled(p: Contents, buf: seq<Cell>, out: seq<Cell>) {
    exists metaOrder, memoOrder :: Orders(p, metaOrder, memoOrder)
      && |Written(p, metaOrder, memoOrder)| == WrittenCount(p)
      && out == buf + Header(WrittenCount(p)) + Cells(Written(p, metaOrder, memoOrder))
  }

  function Cells(pairs: seq<Pair>): seq<Cell> {
    seq(|pairs|, i requires 0 <= i < |pairs| => Serialized(pairs[i]))
  }

  /** Reads a map with a map16 header: its pairs and what follows it. */
  function ReadMap(buf: seq<Cell>): (r: Option<(seq<Pair>, seq<Cell>)>) {
    if |buf| < 3 || !buf[0].Byte? || buf[0].b != MAP16 || !buf[1].Byte? || !buf[2].Byte? then None
    else ReadPairs(buf[3..], buf[1].b * 256 + buf[2].b)
  }

  function ReadPairs(buf: seq<Cell>, n: nat): (r: Option<(seq<Pair>, seq<Cell>)>) {
    if n == 0 then Some(([], buf))
    else if buf == [] || !buf[0].Serialized? then None
    else match ReadPairs(buf[1..], n - 1)
      case None => None
      case Some(r) => Some(([buf[0].p] + r.0, r.1))
  }
}

/** types/payload.go and types/msgp_payload_map.go. Serialized data is taken as the pairs that it holds. */
module Payload {
  import opened Options
  import opened Fields
  import opened PayloadSpec

  datatype Piece = Key(k: string) | Val(v: Value)

  function Flat(pairs: seq<Pair>): seq<Piece> {
    if pairs == [] then [] else [Key(pairs[0].0), Val(pairs[0].1)] + Flat(pairs[1..])
  }

  /** Goes through a serialized map. A value that is not asked for is skipped by the next key. */
  class MsgpPayloadMapIter {
    var remaining: seq<Piece>
    var pendingValue: bool

    /** What is ahead: maybe the value v, and then the pairs `rest`. */
    ghost predicate Ahead(v: Value, rest: seq<Pair>)
      reads this
    {
      remaining == (if pendingValue then [Val(v)] else []) + Flat(rest)
    }

    constructor (rawData: seq<Pair>)
      ensures !pendingValue && Ahead(Nil, rawData)
    {
      remaining, pendingValue := Flat(rawData), false;
    }

    method NextKey(ghost v: Value, ghost rest: seq<Pair>) returns (key: string, eof: bool)
      requires Ahead(v, rest)
      modifies this
      ensures eof == (rest == [])
      ensures !eof ==> key == rest[0].0 && pendingValue && Ahead(rest[0].1, rest[1..])
    {
      key := "";
      if pendingValue {
        remaining := remaining[1..];
      }
      assert remaining == Flat(rest);
      if |remaining| == 0 {
        return key, true;
      }
      key, remaining := remaining[0].k, remaining[1..];
      pendingValue, eof := true, false;
    }

    /** Fails when no value is pending. */
    method ValueAny(ghost v: Value, ghost rest: seq<Pair>) returns (value: Value, ok: bool)
      requires Ahead(v, rest)
      modifies this
      ensures ok == old(pendingValue) && (ok ==> value == v) && !pendingValue && Ahead(v, rest)
    {
      if !pendingValue {
        return Nil, false;
      }
      pendingValue := false;
      value, remaining := remaining[0].v, remaining[1..];
      ok := true;
    }
  }

  class Payload {
    var msgpData: seq<Pair>
    var isEmpty: bool
    var memoizedFields: map<string, Value>
    var missingFields: seq<string>
    var hasExtractedMetadata: bool
    /** The dedicated metadata fields that do not have their default. */
    var dedicated: Slots

    ghost function View(): Contents
      reads this
    {
      Contents(msgpData, memoizedFields, Elements(missingFields), dedicated, isEmpty, hasExtractedMetadata)
    }

    constructor ()
      ensures View() == EMPTY
    {
      msgpData, memoizedFields, missingFields, dedicated := [], map[], [], map[];
      isEmpty, hasExtractedMetadata := false, false;
    }

    method ExtractCriticalFieldsFromBytes(data: seq<Pair>, names: Names) returns (ok: bool)
      modifies this
      ensures var (p, read) := Unmarshalled(old(View()), data, names);
        ok == read && View() == p.(data := old(msgpData))
    {
      if ROOT !in dedicated {
        AssignField(ROOT, Bool(true));
      }
      if |data| == 0 {
        isEmpty := true;
      }
      var found := ExtractPairs(data, names);
      if found == -1 {
        return false;
      }
      if found < |names.sampling| {
        ListMissing(names.sampling);
      }
      if SIGNAL_TYPE in dedicated && dedicated[SIGNAL_TYPE] == Str("log") {
        dedicated := dedicated - {ROOT};
      }
      hasExtractedMetadata := true;
      ok := true;
    }

    method ListMissing(fields: seq<string>)
      modifies this`missingFields
      ensures View() == old(View()).(missing := old(View()).missing + set k | k in fields && k !in memoizedFields)
    {
      ghost var before := Elements(missingFields);
      for i := 0 to |fields|
        invariant Elements(missingFields) == before + set k | k in fields[..i] && k !in memoizedFields
      {
        ElementsSnoc(missingFields, fields[i]);
        assert fields[..i + 1] == fields[..i] + [fields[i]];
        if fields[i] !in memoizedFields {
          missingFields := missingFields + [fields[i]];
        }
      }
      assert fields[..|fields|] == fields;
    }

    /** The pairs of a serialized map. Returns how many sampling keys were memoized, or -1. */
    method ExtractPairs(data: seq<Pair>, names: Names) returns (keysFound: int)
      modifies this`dedicated, this`memoizedFields
      ensures var scan := Scan(old(dedicated), old(memoizedFields), [], true).Steps(data, names);
        && dedicated == scan.slots && memoizedFields == scan.memo
        && keysFound == if scan.ok then |scan.found| else -1
    {
      ghost var start := Scan(dedicated, memoizedFields, [], true);
      ghost var scan := start;
      keysFound := 0;
      for i := 0 to |data|
        invariant scan == start.Steps(data[..i], names) && scan.ok
        invariant dedicated == scan.slots && memoizedFields == scan.memo && keysFound == |scan.found|
      {
        assert data[..i + 1][..i] == data[..i];
        scan := scan.Step(data[i], names);
        var ok;
        ok, keysFound := ExtractPair(data[i], names, keysFound, start.Steps(data[..i], names));
        if !ok {
          StuckScan(start, data, names, i + 1);
          return -1;
        }
      }
      assert data[..|data|] == data;
    }

    method ExtractPair(p: Pair, names: Names, keysFound: nat, ghost scan: Scan) returns (ok: bool, found: nat)
      requires scan.ok && dedicated == scan.slots && memoizedFields == scan.memo && keysFound == |scan.found|
      modifies this`dedicated, this`memoizedFields
      ensures var scan' := scan.Step(p, names);
        && ok == scan'.ok && dedicated == scan'.slots && memoizedFields == scan'.memo && found == |scan'.found|
    {
      hide KindOf;
      var (key, value) := p;
      found := keysFound;
      var handled := false;
      if IsMeta(key) && TypeIsCorrect(KindOf(key).value, value) {
        ok := UnmarshalField(key, value);
        if !ok {
          return;
        }
        handled := true;
      }
      if !handled && value.Str? {
        if TRACE_ID !in dedicated && key in names.trace {
          AssignField(TRACE_ID, value);
          handled := true;
        } else if key in names.parent {
          if value.s != "" {
            AssignField(ROOT, Bool(false));
          }
          handled := true;
        }
      }
      if !handled && keysFound < |names.sampling| && key in names.sampling && key !in memoizedFields {
        found := keysFound + 1;
        Set(key, value);
      }
      ok := true;
    }

    method UnmarshalField(key: string, value: Value) returns (ok: bool)
      requires IsMeta(key) && TypeIsCorrect(KindOf(key).value, value)
      modifies this`dedicated
      ensures (dedicated, ok) == Read(old(dedicated), key, value)
    {
      if value.Bin? || (value.Uint64? && value.u > MAX_INT64) {
        dedicated := dedicated - {key};
        return false;
      }
      AssignField(key, if value.Uint64? then Int64(value.u) else value);
      ok := true;
    }

    method AssignField(key: string, value: Value)
      modifies this`dedicated
      ensures dedicated == Assigned(old(dedicated), key, value)
    {
      dedicated := Assigned(dedicated, key, value);
    }

    method UnmarshalMsgpEvent(data: seq<Pair>, names: Names) returns (ok: bool)
      modifies this
      ensures var (p, read) := Unmarshalled(old(View()), data, names);
        ok == read && View() == if ok then p else p.(data := old(msgpData))
    {
      ok := ExtractCriticalFieldsFromBytes(data, names);
      if ok {
        msgpData := data;
      }
    }

    method Set(key: string, value: Value)
      modifies this`dedicated, this`memoizedFields
      ensures View() == old(View()).Set(key, value)
    {
      if IsMeta(key) {
        AssignField(key, value);
        return;
      }
      memoizedFields := memoizedFields[key := value];
    }

    /** A nil result stands for an absent field and for a field that holds nil. */
    method Get(key: string) returns (value: Value)
      ensures value == match View().Seen(key) case Some(v) => v case None => Nil
    {
      hide KindOf;
      if HasMetaPrefix(key) {
        if IsMeta(key) {
          return if key in dedicated then dedicated[key] else Nil;
        }
      }
      if IsMeta(key) {
        MetaKeysHaveThePrefix(key);
      }
      if key in memoizedFields {
        return memoizedFields[key];
      }
      if key in missingFields {
        return Nil;
      }
      var iter := new MsgpPayloadMapIter(msgpData);
      ghost var v, rest := Nil, msgpData;
      while true
        invariant iter.Ahead(v, rest) && Find(msgpData, key) == Find(rest, key)
        decreases |rest|
      {
        var k, eof := iter.NextKey(v, rest);
        if eof {
          return Nil;
        }
        v, rest := rest[0].1, rest[1..];
        if k == key {
          var known, _ := iter.ValueAny(v, rest);
          return known;
        }
      }
    }

    method Exists(key: string) returns (found: bool)
      ensures found == View().Seen(key).Some?
    {
      hide KindOf;
      if HasMetaPrefix(key) {
        if IsMeta(key) {
          return key in dedicated;
        }
      }
      if IsMeta(key) {
        MetaKeysHaveThePrefix(key);
      }
      if key in memoizedFields {
        return true;
      }
      if key in missingFields {
        return false;
      }
      var iter := new MsgpPayloadMapIter(msgpData);
      ghost var v, rest := Nil, msgpData;
      while true
        invariant iter.Ahead(v, rest) && Find(msgpData, key) == Find(rest, key)
        decreases |rest|
      {
        var k, eof := iter.NextKey(v, rest);
        if eof {
          return false;
        }
        v, rest := rest[0].1, rest[1..];
        if k == key {
          return true;
        }
      }
    }

    method MemoizeFields(keys: seq<string>)
      modifies this
      ensures View() == old(View()).Memoized(keys)
    {
      var keysToFind: set<string> := {};
      for i := 0 to |keys|
        invariant keysToFind == View().ToFind(keys[..i])
      {
        assert keys[..i + 1] == keys[..i] + [keys[i]];
        if keys[i] in missingFields {
          continue;
        }
        if keys[i] !in memoizedFields {
          keysToFind := keysToFind + {keys[i]};
        }
      }
      assert keys[..|keys|] == keys;
      if |keysToFind| == 0 {
        return;
      }
      PullFields(keysToFind);
      ListUnfound(keysToFind);
    }

    method ListUnfound(keys: set<string>)
      modifies this`missingFields
      ensures View() == old(View()).(missing := old(View()).missing + set k | k in keys && k !in memoizedFields)
    {
      ghost var before := Elements(missingFields);
      var rest := keys;
      while rest != {}
        invariant rest <= keys
        invariant Elements(missingFields) == before + set k | k in keys - rest && k !in memoizedFields
        decreases rest
      {
        var key :| key in rest;
        ElementsSnoc(missingFields, key);
        rest := rest - {key};
        if key !in memoizedFields {
          missingFields := missingFields + [key];
        }
      }
    }

    method PullFields(keysToFind: set<string>)
      modifies this`dedicated, this`memoizedFields
      ensures View() == old(View()).Pulled(keysToFind, msgpData, |keysToFind|)
    {
      var iter := new MsgpPayloadMapIter(msgpData);
      ghost var v, rest := Nil, msgpData;
      var keysFound := 0;
      while keysFound < |keysToFind|
        invariant keysFound <= |keysToFind| && iter.Ahead(v, rest)
        invariant old(View()).Pulled(keysToFind, msgpData, |keysToFind|)
                  == View().Pulled(keysToFind, rest, |keysToFind| - keysFound)
        decreases |rest|
      {
        var key, eof := iter.NextKey(v, rest);
        if eof {
          break;
        }
        v, rest := rest[0].1, rest[1..];
        if key in keysToFind {
          var value, _ := iter.ValueAny(v, rest);
          Set(key, value);
          keysFound := keysFound + 1;
        }
      }
    }

    /** Appends the payload to a buffer: reserves a map16 header, writes the fields, and patches the count in.
        Fails on a value without a serialized form and on more fields than the header can count. */
    method MarshalMsg(buf: seq<Cell>) returns (out: seq<Cell>, ok: bool)
      ensures ok == (!HasForeign(View().memo) && WrittenCount(View()) <= 65535)
      ensures ok ==> IsMarshalled(View(), buf, out)
    {
      hide KindOf, IsMeta, HasForeign;
      var startLen := |buf|;
      ghost var metaOrder, memoOrder;
      out, metaOrder := AppendDedicated(buf + [Byte(MAP16), Byte(0), Byte(0)]);
      var count: nat := |dedicated|;
      OrderSize(metaOrder, dedicated.Keys);
      var memoized;
      out, memoized, ok, memoOrder := AppendMemoized(out);
      if !ok {
        return;
      }
      count := count + memoized;
      OrderSize(memoOrder, Plain(memoizedFields));
      var raw;
      out, raw := AppendSerialized(out);
      count := count + raw;
      WrittenCells(View(), buf + [Byte(MAP16), Byte(0), Byte(0)], metaOrder, memoOrder);
      if count > MAP16_MAX {
        ok := false;
        return;
      }
      hide Written;
      HeaderPatched(buf, Cells(Written(View(), metaOrder, memoOrder)), count);
      out := out[startLen + 1 := Byte(count / 256)];
      out := out[startLen + 2 := Byte(count % 256)];
      assert Orders(View(), metaOrder, memoOrder);
    }

    method AppendDedicated(buf: seq<Cell>) returns (out: seq<Cell>, ghost order: seq<string>)
      ensures IsOrder(order, dedicated.Keys) && out == buf + Cells(FromSlots(dedicated, order))
    {
      out, order := buf, [];
      var rest := dedicated.Keys;
      while rest != {}
        invariant rest <= dedicated.Keys && IsOrder(order, dedicated.Keys - rest)
        invariant out == buf + Cells(FromSlots(dedicated, order))
        decreases rest
      {
        var key :| key in rest;
        rest := rest - {key};
        assert FromSlots(dedicated, order + [key]) == FromSlots(dedicated, order) + [(key, dedicated[key])];
        out, order := out + [Serialized((key, dedicated[key]))], order + [key];
      }
    }

    method AppendMemoized(buf: seq<Cell>) returns (out: seq<Cell>, count: nat, ok: bool, ghost order: seq<string>)
      ensures ok == !HasForeign(memoizedFields)
      ensures IsOrder(order, Plain(memoizedFields)) || !ok
      ensures ok ==> count == |order| && (forall k :: k in order ==> k in memoizedFields)
      ensures ok ==> out == buf + Cells(FromMemo(memoizedFields, order))
    {
      hide KindOf;
      out, order, count := buf, [], 0;
      var rest := memoizedFields.Keys;
      while rest != {}
        invariant rest <= memoizedFields.Keys && count == |order|
        invariant IsOrder(order, Plain(memoizedFields) - rest)
        invariant forall k :: k in order ==> !memoizedFields[k].Foreign?
        invariant out == buf + Cells(FromMemo(memoizedFields, order))
        decreases rest
      {
        var key :| key in rest;
        rest := rest - {key};
        if IsMeta(key) {
          assert Plain(memoizedFields) - rest == Plain(memoizedFields) - (rest + {key});
          continue;
        }
        if memoizedFields[key].Foreign? {
          return out, count, false, order;
        }
        assert FromMemo(memoizedFields, order + [key])
               == FromMemo(memoizedFields, order) + [(key, Wire(memoizedFields[key]))];
        out, order := out + [Serialized((key, Wire(memoizedFields[key])))], order + [key];
        count := count + 1;
      }
      ok := true;
    }

    method AppendSerialized(buf: seq<Cell>) returns (out: seq<Cell>, count: nat)
      ensures out == buf + Cells(Kept(msgpData, memoizedFields)) && count == |Kept(msgpData, memoizedFields)|
    {
      hide KindOf;
      out, count := buf, 0;
      var iter := new MsgpPayloadMapIter(msgpData);
      ghost var v, n := Nil, 0;
      while true
        invariant n <= |msgpData| && iter.Ahead(v, msgpData[n..])
        invariant out == buf + Cells(Kept(msgpData[..n], memoizedFields))
        invariant count == |Kept(msgpData[..n], memoizedFields)|
        decreases |msgpData| - n
      {
        var key, eof := iter.NextKey(v, msgpData[n..]);
        if eof {
          assert msgpData[..n] == msgpData;
          return;
        }
        assert msgpData[..n + 1][..n] == msgpData[..n] && msgpData[n..][1..] == msgpData[n + 1..];
        v, n := msgpData[n].1, n + 1;
        if key in memoizedFields {
          continue;
        }
        if IsMeta(key) {
          continue;
        }
        var raw, _ := iter.ValueAny(v, msgpData[n..]);
        out := out + [Serialized((key, raw))];
        count := count + 1;
      }
    }
  }

  lemma WrittenCells(p: Contents, buf: seq<Cell>, metaOrder: seq<string>, memoOrder: seq<string>)
    requires (forall k :: k in metaOrder ==> k in p.slots) && forall k :: k in memoOrder ==> k in p.memo
    ensures buf + Cells(FromSlots(p.slots, metaOrder)) + Cells(FromMemo(p.memo, memoOrder))
            + Cells(Kept(p.data, p.memo))
            == buf + Cells(Written(p, metaOrder, memoOrder))
    ensures |Written(p, metaOrder, memoOrder)| == |metaOrder| + |memoOrder| + |Kept(p.data, p.memo)|
  {
    var a, b, c := FromSlots(p.slots, metaOrder), FromMemo(p.memo, memoOrder), Kept(p.data, p.memo);
    assert Cells(a + b + c) == Cells(a) + Cells(b) + Cells(c);
    assert buf + Cells(a) + Cells(b) + Cells(c) == buf + (Cells(a) + Cells(b) + Cells(c));
  }

  lemma HeaderPatched(buf: seq<Cell>, cells: seq<Cell>, n: nat)
    ensures (buf + [Byte(MAP16), Byte(0), Byte(0)] + cells)[|buf| + 1 := Byte(n / 256)][|buf| + 2 := Byte(n % 256)]
            == buf + Header(n) + cells
  {
  }

  lemma {:induction false} OrderSize(order: seq<string>, keys: set<string>)
    requires IsOrder(order, keys)
    ensures |order| == |keys|
  {
    if order == [] {
      assert keys == {};
    } else {
      var n := |order| - 1;
      assert forall k :: k in order[..n] <==> k in keys - {order[n]};
      OrderSize(order[..n], keys - {order[n]});
    }
  }

  /** A failed extraction stays failed. */
  lemma {:induction false} StuckScan(start: Scan, data: seq<Pair>, names: Names, i: nat)
    requires i <= |data| && !start.Steps(data[..i], names).ok
    ensures start.Steps(data, names) == start.Steps(data[..i], names)
    decreases |data|
  {
    if i == |data| {
      assert data[..i] == data;
    } else {
      assert data[..|data| - 1][..i] == data[..i];
      StuckScan(start, data[..|data| - 1], names, i);
    }
  }
}
