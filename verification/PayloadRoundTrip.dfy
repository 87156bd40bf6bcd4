/** Marshalling a payload and extracting the result into a fresh one. */
module PayloadRoundTrip {
  import opened Options
  import opened Fields
  import opened PayloadSpec
  import opened PayloadRefinement

  lemma {:induction false} PairsReadBack(pairs: seq<Pair>, rest: seq<Cell>)
    ensures ReadPairs(Cells(pairs) + rest, |pairs|) == Some((pairs, rest))
  {
    if pairs == [] {
      assert Cells(pairs) + rest == rest;
    } else {
      PairsReadBack(pairs[1..], rest);
      assert (Cells(pairs) + rest)[1..] == Cells(pairs[1..]) + rest;
      assert (Cells(pairs) + rest)[0] == Serialized(pairs[0]) && [pairs[0]] + pairs[1..] == pairs;
    }
  }

  /** The count in the header is that of the pairs, and reading stops where they end. */
  lemma MapReadsBack(pairs: seq<Pair>, rest: seq<Cell>)
    requires |pairs| <= MAP16_MAX
    ensures ReadMap(Header(|pairs|) + Cells(pairs) + rest) == Some((pairs, rest))
  {
    PairsReadBack(pairs, rest);
    assert (Header(|pairs|) + Cells(pairs) + rest)[3..] == Cells(pairs) + rest;
  }

  /** No two of the pairs have the same key, unless the memo or a dedicated field replaces them. */
  ghost predicate PlainOnce(pairs: seq<Pair>, memo: map<string, Value>) {
    forall i, j :: 0 <= i < j < |pairs| && pairs[i].0 == pairs[j].0 ==> pairs[i].0 in memo || IsMeta(pairs[i].0)
  }

  lemma {:induction false} KeptAre(pairs: seq<Pair>, memo: map<string, Value>)
    ensures forall p :: p in Kept(pairs, memo) <==> p in pairs && p.0 !in memo && !IsMeta(p.0)
  {
    hide KindOf;
    if pairs != [] {
      var n := |pairs| - 1;
      KeptAre(pairs[..n], memo);
      assert pairs == pairs[..n] + [pairs[n]];
    }
  }

  lemma {:induction false} KeptPairs(pairs: seq<Pair>, memo: map<string, Value>)
    ensures DistinctKeys(Kept(pairs, memo)) <==> PlainOnce(pairs, memo)
  {
    if pairs != [] {
      var n := |pairs| - 1;
      hide IsMeta, DistinctKeys, PlainOnce, Kept, Lacks;
      KeptPairs(pairs[..n], memo);
      KeptAre(pairs[..n], memo);
      if pairs[n].0 !in memo && !IsMeta(pairs[n].0) {
        SameKey(pairs[..n], Kept(pairs[..n], memo), memo, pairs[n].0);
      }
      KeptOnce(pairs, memo);
    }
  }

  lemma DistinctSnoc(s: seq<Pair>, p: Pair)
    ensures DistinctKeys(s + [p]) <==> DistinctKeys(s) && Lacks(s, p.0)
  {
    var t := s + [p];
    assert forall i :: 0 <= i < |s| ==> t[i] == s[i];
    assert t[|s|] == p;
  }

  lemma PlainOnceSnoc(pairs: seq<Pair>, memo: map<string, Value>)
    requires pairs != []
    ensures var n := |pairs| - 1;
      var key := pairs[n].0;
      PlainOnce(pairs, memo) <==> PlainOnce(pairs[..n], memo) && (key in memo || IsMeta(key) || Lacks(pairs[..n], key))
  {
    hide IsMeta;
    var n := |pairs| - 1;
    assert forall i :: 0 <= i < n ==> pairs[..n][i] == pairs[i];
  }

  ghost predicate Lacks(pairs: seq<Pair>, key: string) {
    forall i :: 0 <= i < |pairs| ==> pairs[i].0 != key
  }

  lemma KeptOnce(pairs: seq<Pair>, memo: map<string, Value>)
    requires pairs != []
    requires var n := |pairs| - 1;
      var key, rest := pairs[n].0, Kept(pairs[..n], memo);
      && (DistinctKeys(rest) <==> PlainOnce(pairs[..n], memo))
      && (key !in memo && !IsMeta(key) ==> (Lacks(rest, key) <==> Lacks(pairs[..n], key)))
    ensures DistinctKeys(Kept(pairs, memo)) <==> PlainOnce(pairs, memo)
  {
    hide IsMeta, DistinctKeys, PlainOnce, Lacks;
    var n := |pairs| - 1;
    PlainOnceSnoc(pairs, memo);
    DistinctSnoc(Kept(pairs[..n], memo), pairs[n]);
  }

  lemma SameKey(pairs: seq<Pair>, rest: seq<Pair>, memo: map<string, Value>, key: string)
    requires key !in memo && !IsMeta(key)
    requires forall p :: p in rest <==> p in pairs && p.0 !in memo && !IsMeta(p.0)
    ensures Lacks(rest, key) <==> Lacks(pairs, key)
  {
    hide IsMeta;
    if i :| 0 <= i < |pairs| && pairs[i].0 == key {
      assert pairs[i] in rest;
    } else {
      forall i | 0 <= i < |rest| ensures rest[i].0 != key {
        assert rest[i] in rest;
      }
    }
  }

  /** The fields that are not metadata, as they are written. */
  function Others(p: Contents, memoOrder: seq<string>): seq<Pair>
    requires forall k :: k in memoOrder ==> k in p.memo
  {
    FromMemo(p.memo, memoOrder) + Kept(p.data, p.memo)
  }

  /** What a field is in the serialized form: small unsigned numbers become signed. */
  function AsWritten(p: Contents, key: string): Option<Value> {
    match p.At(key)
    case Some(Uint64(u)) => if !IsMeta(key) && key in p.memo && u < 128 then Some(Int64(u)) else p.At(key)
    case _ => p.At(key)
  }

  lemma FirstIsKept(p: Contents, pair: Pair)
    requires PlainOnce(p.data, p.memo) && pair in Kept(p.data, p.memo)
    ensures Find(p.data, pair.0) == Some(pair.1)
  {
    hide KindOf;
    KeptAre(p.data, p.memo);
    FindsOnly(p.data, pair.0);
    var i :| 0 <= i < |p.data| && p.data[i] == pair;
    var j :| 0 <= j < |p.data| && p.data[j] == (pair.0, Find(p.data, pair.0).value);
  }

  lemma OthersAre(p: Contents, metaOrder: seq<string>, memoOrder: seq<string>)
    requires PlainOnce(p.data, p.memo) && Orders(p, metaOrder, memoOrder)
    ensures var others := Others(p, memoOrder);
      && DistinctKeys(others)
      && forall pair :: pair in others <==> !IsMeta(pair.0) && AsWritten(p, pair.0) == Some(pair.1)
  {
    hide KindOf;
    KeptPairs(p.data, p.memo);
    KeptAre(p.data, p.memo);
    var others, n := Others(p, memoOrder), |memoOrder|;
    var kept := Kept(p.data, p.memo);
    assert forall i :: n <= i < |others| ==> others[i] == kept[i - n] && others[i] in kept;
    assert forall i :: 0 <= i < n ==>
      memoOrder[i] in Plain(p.memo) && others[i] == (memoOrder[i], Wire(p.memo[memoOrder[i]]));
    forall pair ensures pair in others <==> !IsMeta(pair.0) && AsWritten(p, pair.0) == Some(pair.1) {
      FindsOnly(p.data, pair.0);
      if pair in kept {
        FirstIsKept(p, pair);
      }
      if !IsMeta(pair.0) && pair.0 in p.memo {
        assert pair.0 in Plain(p.memo);
        var i :| 0 <= i < n && memoOrder[i] == pair.0;
        assert others[i] == (pair.0, Wire(p.memo[pair.0]));
      }
    }
  }

  /** No key is written twice, unless a serialized key that is written repeats. */
  lemma WrittenKeysAreDistinct(p: Contents, metaOrder: seq<string>, memoOrder: seq<string>)
    requires Orders(p, metaOrder, memoOrder) && SlotsTyped(p.slots)
    ensures DistinctKeys(Written(p, metaOrder, memoOrder)) <==> PlainOnce(p.data, p.memo)
  {
    hide StringField, BoolField, Int64Field;
    KeptPairs(p.data, p.memo);
    if PlainOnce(p.data, p.memo) {
      WrittenApart(p, metaOrder, memoOrder);
    } else {
      var front := FromSlots(p.slots, metaOrder) + FromMemo(p.memo, memoOrder);
      hide *;
      RepeatsStay(front, Kept(p.data, p.memo));
      WrittenIs(p, metaOrder, memoOrder);
    }
  }

  lemma WrittenIs(p: Contents, metaOrder: seq<string>, memoOrder: seq<string>)
    requires Orders(p, metaOrder, memoOrder)
    ensures Written(p, metaOrder, memoOrder)
            == FromSlots(p.slots, metaOrder) + FromMemo(p.memo, memoOrder) + Kept(p.data, p.memo)
  {
  }

  lemma RepeatsStay(front: seq<Pair>, pairs: seq<Pair>)
    requires !DistinctKeys(pairs)
    ensures !DistinctKeys(front + pairs)
  {
    var i, j :| 0 <= i < j < |pairs| && pairs[i].0 == pairs[j].0;
    var n := |front|;
    assert (front + pairs)[n + i] == pairs[i] && (front + pairs)[n + j] == pairs[j];
  }

  lemma WrittenApart(p: Contents, metaOrder: seq<string>, memoOrder: seq<string>)
    requires PlainOnce(p.data, p.memo) && Orders(p, metaOrder, memoOrder) && SlotsTyped(p.slots)
    ensures DistinctKeys(Written(p, metaOrder, memoOrder))
  {
    hide StringField, BoolField, Int64Field, AsWritten;
    OthersAre(p, metaOrder, memoOrder);
    var others, written, n := Others(p, memoOrder), Written(p, metaOrder, memoOrder), |metaOrder|;
    assert written == FromSlots(p.slots, metaOrder) + others;
    forall i, j | 0 <= i < j < |written| ensures written[i].0 != written[j].0 {
      if j >= n {
        assert written[j] == others[j - n] && written[j] in others;
        if i < n {
          assert metaOrder[i] in p.slots;
        } else {
          assert written[i] == others[i - n];
        }
      }
    }
  }

  lemma {:induction false} StepsConcat(start: Scan, a: seq<Pair>, b: seq<Pair>, names: Names)
    ensures start.Steps(a + b, names) == start.Steps(a, names).Steps(b, names)
    decreases |b|
  {
    if b == [] {
      assert a + b == a;
    } else {
      var n := |b| - 1;
      assert (a + b)[..|a| + n] == a + b[..n];
      StepsConcat(start, a, b[..n], names);
    }
  }

  /** The dedicated fields after the first fields of an order have been read. */
  function FirstRead(slots: Slots, order: seq<string>): Slots
    requires forall k :: k in order ==> k in slots
  {
    Rooted(map[]) + map k | k in Elements(order) :: slots[k]
  }

  lemma ReadsWritten(slots: Slots, key: string, v: Value)
    requires SlotTyped(key, v)
    ensures IsMeta(key) && TypeIsCorrect(KindOf(key).value, v) && Read(slots, key, v) == (slots[key := v], true)
  {
    hide StringField, BoolField, Int64Field;
  }

  lemma FirstReadSnoc(slots: Slots, order: seq<string>, n: nat)
    requires (forall k :: k in order ==> k in slots) && |order| == n + 1
    ensures FromSlots(slots, order) == FromSlots(slots, order[..n]) + [(order[n], slots[order[n]])]
    ensures FirstRead(slots, order) == FirstRead(slots, order[..n])[order[n] := slots[order[n]]]
  {
    hide Rooted;
    assert order == order[..n] + [order[n]];
    ElementsSnoc(order[..n], order[n]);
  }

  /** Every dedicated field is read as it was written. */
  lemma {:induction false} ReadDedicated(slots: Slots, order: seq<string>, names: Names)
    requires SlotsTyped(slots) && forall k :: k in order ==> k in slots
    ensures FRESH.Steps(FromSlots(slots, order), names) == Scan(FirstRead(slots, order), map[], [], true)
  {
    hide KindOf, SlotTyped, Read;
    if order == [] {
      assert FirstRead(slots, order) == Rooted(map[]);
    } else {
      hide FirstRead, FromSlots, TypeIsCorrect;
      var n := |order| - 1;
      var k := order[n];
      ReadDedicated(slots, order[..n], names);
      FirstReadSnoc(slots, order, n);
      ReadsWritten(FirstRead(slots, order[..n]), k, slots[k]);
      StepsConcat(FRESH, FromSlots(slots, order[..n]), [(k, slots[k])], names);
      OneStep(FRESH.Steps(FromSlots(slots, order[..n]), names), (k, slots[k]), names);
    }
  }

  lemma OneStep(scan: Scan, p: Pair, names: Names)
    ensures scan.Steps([p], names) == scan.Step(p, names)
  {
    assert [p][..0] == [];
  }

  lemma AllRead(slots: Slots, order: seq<string>)
    requires SlotsTyped(slots) && IsOrder(order, slots.Keys)
    ensures FirstRead(slots, order) == Rooted(slots)
  {
    SpecialFields();
    hide KindOf;
    assert Elements(order) == slots.Keys;
  }

  /** Among fields that are not metadata: one that names the trace, or a parent. */
  ghost predicate HoldsTraceId(pairs: seq<Pair>, names: Names) {
    exists p :: p in pairs && p.0 in names.trace && p.1.Str? && p.1.s != ""
  }

  ghost predicate HoldsParentId(pairs: seq<Pair>, names: Names) {
    exists p :: p in pairs && p.0 in names.parent && p.1.Str? && p.1.s != ""
  }

  /** What the fields that are not metadata do to the dedicated fields. */
  ghost predicate Ided(slots: Slots, pairs: seq<Pair>, names: Names, after: Slots)
    requires ROOT in slots
  {
    && (forall k :: k != TRACE_ID && k != ROOT ==>
          (k in slots <==> k in after) && (k in slots ==> after[k] == slots[k]))
    && (TRACE_ID in slots ==> TRACE_ID in after && after[TRACE_ID] == slots[TRACE_ID])
    && (TRACE_ID !in slots ==> (TRACE_ID in after <==> HoldsTraceId(pairs, names)))
    && (TRACE_ID in slots || !HoldsTraceId(pairs, names) ==>
          ROOT in after && after[ROOT] == if HoldsParentId(pairs, names) then Bool(false) else slots[ROOT])
  }

  lemma IdedNothing(slots: Slots, names: Names)
    requires ROOT in slots
    ensures Ided(slots, [], names, slots)
  {
    SpecialFields();
    hide KindOf;
  }

  lemma IdedOne(slots: Slots, pairs: seq<Pair>, names: Names, after: Slots, p: Pair, scan: Scan)
    requires ROOT in slots && Ided(slots, pairs, names, after) && !IsMeta(p.0) && scan.ok && scan.slots == after
    ensures scan.Step(p, names).ok && Ided(slots, pairs + [p], names, scan.Step(p, names).slots)
  {
    SpecialFields();
    hide StringField, BoolField, Int64Field;
    assert forall q :: q in pairs + [p] <==> q in pairs || q == p;
    var text := p.1.Str? && p.1.s != "";
    assert HoldsTraceId(pairs + [p], names) <==> HoldsTraceId(pairs, names) || (p.0 in names.trace && text);
    assert HoldsParentId(pairs + [p], names) <==> HoldsParentId(pairs, names) || (p.0 in names.parent && text);
  }

  lemma {:induction false} ReadOthers(slots: Slots, pairs: seq<Pair>, names: Names)
    requires ROOT in slots && forall p :: p in pairs ==> !IsMeta(p.0)
    ensures var scan := Scan(slots, map[], [], true).Steps(pairs, names);
      scan.ok && Ided(slots, pairs, names, scan.slots)
  {
    hide KindOf, IsMeta, Ided, Scan.Step;
    if pairs == [] {
      IdedNothing(slots, names);
    } else {
      var n := |pairs| - 1;
      ReadOthers(slots, pairs[..n], names);
      var scan := Scan(slots, map[], [], true).Steps(pairs[..n], names);
      IdedOne(slots, pairs[..n], names, scan.slots, pairs[n], scan);
      assert pairs == pairs[..n] + [pairs[n]];
    }
  }

  /** A field that is not metadata and holds a text. */
  predicate HasText(p: Contents, key: string) {
    !IsMeta(key) && match p.At(key) case Some(Str(s)) => s != "" case _ => false
  }

  ghost predicate NamesATrace(p: Contents, names: Names) {
    exists k :: k in names.trace && HasText(p, k)
  }

  ghost predicate NamesAParent(p: Contents, names: Names) {
    exists k :: k in names.parent && HasText(p, k)
  }

  /** The ids agree with the fields they come from: the trace id is set if a field names the trace, the root
      flag is unset in a log, and else set, and false when there is a parent. */
  ghost predicate Consistent(p: Contents, names: Names) {
    && (TRACE_ID in p.slots || !NamesATrace(p, names))
    && if IsLog(p.slots) then ROOT !in p.slots
       else ROOT in p.slots && (NamesAParent(p, names) ==> p.slots[ROOT] == Bool(false))
  }

  /** What is written names the ids that the payload names. */
  lemma TextsAreWritten(p: Contents, metaOrder: seq<string>, memoOrder: seq<string>, names: Names)
    requires PlainOnce(p.data, p.memo) && Orders(p, metaOrder, memoOrder)
    ensures HoldsTraceId(Others(p, memoOrder), names) == NamesATrace(p, names)
    ensures HoldsParentId(Others(p, memoOrder), names) == NamesAParent(p, names)
  {
    hide KindOf, IsMeta, Others, Find;
    OthersAre(p, metaOrder, memoOrder);
    forall k | HasText(p, k) ensures (k, p.At(k).value) in Others(p, memoOrder) {
      assert AsWritten(p, k) == p.At(k);
    }
  }

  /** The dedicated fields of the fresh payload are those of the old one exactly when its ids are consistent. */
  lemma DedicatedRestored(p: Contents, others: seq<Pair>, names: Names, after: Slots)
    requires ROOT in Rooted(p.slots) && Ided(Rooted(p.slots), others, names, after)
    requires HoldsTraceId(others, names) == NamesATrace(p, names)
    requires HoldsParentId(others, names) == NamesAParent(p, names)
    ensures (if IsLog(after) then after - {ROOT} else after) == p.slots <==> Consistent(p, names)
  {
    SpecialFields();
    hide KindOf, HoldsTraceId, HoldsParentId, NamesATrace, NamesAParent;
    var q := if IsLog(after) then after - {ROOT} else after;
    assert IsLog(after) == IsLog(p.slots);
    assert Rooted(p.slots) == if ROOT in p.slots then p.slots else p.slots[ROOT := Bool(true)];
    if Consistent(p, names) {
      assert forall k :: k in q <==> k in p.slots;
      assert forall k :: k in q ==> q[k] == p.slots[k];
      assert q == p.slots;
    }
  }

  /** A field that is not metadata is found in the fresh payload as it was written. */
  lemma OthersRestored(p: Contents, metaOrder: seq<string>, memoOrder: seq<string>, names: Names, key: string)
    requires PlainOnce(p.data, p.memo) && SlotsTyped(p.slots) && Orders(p, metaOrder, memoOrder) && !IsMeta(key)
    requires Unmarshalled(EMPTY, Written(p, metaOrder, memoOrder), names).1
    ensures Unmarshalled(EMPTY, Written(p, metaOrder, memoOrder), names).0.At(key) == AsWritten(p, key)
  {
    hide StringField, BoolField, Int64Field, AsWritten, Scan.Step, Rooted;
    var written, others := Written(p, metaOrder, memoOrder), Others(p, memoOrder);
    var q := Unmarshalled(EMPTY, written, names).0;
    OthersAre(p, metaOrder, memoOrder);
    WrittenIsOthers(p, metaOrder, memoOrder, key);
    FindsOnly(written, key);
    assert written[..|written|] == written;
    MemoIsData(FRESH, written, |written|, names);
    if AsWritten(p, key).Some? {
      assert (key, AsWritten(p, key).value) in written;
    }
    if key in q.memo {
      var j :| 0 <= j < |written| && written[j] == (key, q.memo[key]);
      assert written[j] in written;
    } else if Find(written, key).Some? {
      var i :| 0 <= i < |written| && written[i] == (key, Find(written, key).value);
      assert written[i] in written;
    }
  }

  lemma WrittenIsOthers(p: Contents, metaOrder: seq<string>, memoOrder: seq<string>, key: string)
    requires SlotsTyped(p.slots) && Orders(p, metaOrder, memoOrder) && !IsMeta(key)
    ensures forall v :: (key, v) in Written(p, metaOrder, memoOrder) <==> (key, v) in Others(p, memoOrder)
  {
    hide StringField, BoolField, Int64Field;
    var written, others := Written(p, metaOrder, memoOrder), Others(p, memoOrder);
    assert written == FromSlots(p.slots, metaOrder) + others;
    forall i | 0 <= i < |metaOrder| ensures FromSlots(p.slots, metaOrder)[i].0 != key {
      assert metaOrder[i] in p.slots;
    }
  }

  /** Extraction of what was written succeeds; how it leaves the dedicated fields. */
  lemma WrittenIsRead(p: Contents, metaOrder: seq<string>, memoOrder: seq<string>, names: Names)
    requires PlainOnce(p.data, p.memo) && SlotsTyped(p.slots) && Orders(p, metaOrder, memoOrder)
    ensures var (q, ok) := Unmarshalled(EMPTY, Written(p, metaOrder, memoOrder), names);
      && ok && (q.slots == p.slots <==> Consistent(p, names))
      && forall k :: k in q.slots ==> IsMeta(k)
  {
    hide StringField, BoolField, Int64Field, AsWritten, Scan.Step, FirstRead, Ided, FromSlots, Others, Consistent;
    hide TypeIsCorrect, Wire;
    var others := Others(p, memoOrder);
    OthersAre(p, metaOrder, memoOrder);
    SpecialFields();
    WrittenSplits(p, metaOrder, memoOrder);
    TextsAreWritten(p, metaOrder, memoOrder, names);
    StepsConcat(FRESH, FromSlots(p.slots, metaOrder), others, names);
    ReadDedicated(p.slots, metaOrder, names);
    AllRead(p.slots, metaOrder);
    ReadOthers(Rooted(p.slots), others, names);
    var after := FRESH.Steps(Written(p, metaOrder, memoOrder), names).slots;
    DedicatedRestored(p, others, names, after);
    IdedIsMeta(p.slots, others, names, after);
  }

  lemma WrittenSplits(p: Contents, metaOrder: seq<string>, memoOrder: seq<string>)
    requires Orders(p, metaOrder, memoOrder)
    ensures Written(p, metaOrder, memoOrder) == FromSlots(p.slots, metaOrder) + Others(p, memoOrder)
  {
  }

  lemma IdedIsMeta(slots: Slots, others: seq<Pair>, names: Names, after: Slots)
    requires SlotsTyped(slots) && ROOT in Rooted(slots) && Ided(Rooted(slots), others, names, after)
    ensures forall k :: k in after ==> IsMeta(k)
  {
    SpecialFields();
    hide StringField, BoolField, Int64Field, HoldsTraceId, HoldsParentId;
    assert forall k :: k in slots ==> SlotTyped(k, slots[k]);
  }

  /** Writing a payload and extracting it afresh succeeds, and restores the map it stands for exactly when
      the ids were consistent. */
  lemma MarshalThenExtract(p: Contents, metaOrder: seq<string>, memoOrder: seq<string>, names: Names)
    requires PlainOnce(p.data, p.memo) && SlotsTyped(p.slots) && Orders(p, metaOrder, memoOrder)
    ensures var (q, ok) := Unmarshalled(EMPTY, Written(p, metaOrder, memoOrder), names);
      ok && ((forall key :: q.At(key) == AsWritten(p, key)) <==> Consistent(p, names))
  {
    hide KindOf, Consistent, Unmarshalled, Written;
    WrittenIsRead(p, metaOrder, memoOrder, names);
    var q := Unmarshalled(EMPTY, Written(p, metaOrder, memoOrder), names).0;
    forall key | !IsMeta(key) ensures q.At(key) == AsWritten(p, key) {
      OthersRestored(p, metaOrder, memoOrder, names, key);
    }
    if forall key :: q.At(key) == AsWritten(p, key) {
      forall key ensures (key in q.slots <==> key in p.slots) && (key in q.slots ==> q.slots[key] == p.slots[key]) {
        if key in p.slots {
          TypedIsMeta(p.slots, key);
        }
        assert q.At(key) == AsWritten(p, key);
      }
      assert q.slots == p.slots;
    }
  }

  lemma TypedIsMeta(slots: Slots, key: string)
    requires SlotsTyped(slots) && key in slots
    ensures IsMeta(key)
  {
    assert SlotTyped(key, slots[key]);
  }

  /** Without explicit metadata for the root flag and the trace id, where extraction is after i pairs. */
  ghost predicate Told(slots: Slots, pairs: seq<Pair>, names: Names) {
    && ROOT in slots && slots[ROOT].Bool?
    && (forall p :: p in pairs && !IsMeta(p.0) && p.0 in names.trace && p.1.Str? && p.1.s != "" ==> TRACE_ID in slots)
    && (forall p :: p in pairs && !IsMeta(p.0) && p.0 in names.parent && p.1.Str? && p.1.s != "" ==>
          slots[ROOT] == Bool(false))
  }

  lemma ToldOne(scan: Scan, pairs: seq<Pair>, p: Pair, names: Names)
    requires scan.ok && Told(scan.slots, pairs, names) && p.0 != ROOT && p.0 != TRACE_ID
    requires forall k :: k in names.trace ==> k !in names.parent
    ensures Told(scan.Step(p, names).slots, pairs + [p], names)
  {
    SpecialFields();
    hide StringField, BoolField, Int64Field;
    assert forall q :: q in pairs + [p] <==> q in pairs || q == p;
  }

  lemma {:induction false} ExtractionTells(data: seq<Pair>, names: Names)
    requires Find(data, ROOT).None? && Find(data, TRACE_ID).None? && FRESH.Steps(data, names).ok
    requires forall k :: k in names.trace ==> k !in names.parent
    ensures Told(FRESH.Steps(data, names).slots, data, names)
    decreases |data|
  {
    SpecialFields();
    hide KindOf;
    if data != [] {
      var n := |data| - 1;
      FindsOnly(data, ROOT);
      FindsOnly(data, TRACE_ID);
      FindsOnly(data[..n], ROOT);
      FindsOnly(data[..n], TRACE_ID);
      hide Told, Scan.Step;
      StuckStep(FRESH.Steps(data[..n], names), data[n], names);
      ExtractionTells(data[..n], names);
      ToldOne(FRESH.Steps(data[..n], names), data[..n], data[n], names);
      assert data == data[..n] + [data[n]];
    }
  }

  lemma StuckStep(scan: Scan, p: Pair, names: Names)
    ensures !scan.ok ==> scan.Step(p, names) == scan
  {
  }

  lemma FieldIsPair(data: seq<Pair>, names: Names, key: string)
    requires Unmarshalled(EMPTY, data, names).1
    requires !IsMeta(key) && Unmarshalled(EMPTY, data, names).0.At(key).Some?
    ensures (key, Unmarshalled(EMPTY, data, names).0.At(key).value) in data
  {
    hide KindOf, Scan.Step;
    assert data[..|data|] == data;
    MemoIsData(FRESH, data, |data|, names);
    FindsOnly(data, key);
  }

  /** What was extracted from data that leaves the root flag and the trace id to the other fields is consistent,
      so that it survives another round. */
  lemma ExtractedIsConsistent(data: seq<Pair>, names: Names)
    requires Find(data, ROOT).None? && Find(data, TRACE_ID).None?
    requires forall k :: k in names.trace ==> k !in names.parent
    requires Unmarshalled(EMPTY, data, names).1
    ensures Consistent(Unmarshalled(EMPTY, data, names).0, names)
  {
    hide KindOf, IsMeta, Scan.Step, Rooted;
    var p := Unmarshalled(EMPTY, data, names).0;
    ExtractionTells(data, names);
    SpecialFields();
    forall k | HasText(p, k) ensures (k, p.At(k).value) in data {
      FieldIsPair(data, names, k);
    }
  }

  const PARENT_FIRST: seq<Pair> := [("trace.parent_id", Str("p")), (ROOT, Bool(true))]
  const PARENT_NAME := Names([], ["trace.parent_id"], [])

  /** An explicit root flag behind a parent id is taken as it is; marshalled, it goes before the parent id, which
      then clears it: the round trip does not restore this payload. */
  lemma RootFlagIsLost()
    ensures DistinctKeys(PARENT_FIRST)
    ensures var (p, ok) := Unmarshalled(EMPTY, PARENT_FIRST, PARENT_NAME);
      ok && p.At(ROOT) == Some(Bool(true)) && !Consistent(p, PARENT_NAME)
  {
    NotMeta();
    SpecialFields();
    RootedEmpty();
    hide StringField, BoolField, Int64Field;
    var first, second := PARENT_FIRST[0], PARENT_FIRST[1];
    assert PARENT_FIRST == [first] + [second];
    StepsConcat(FRESH, [first], [second], PARENT_NAME);
    OneStep(FRESH, first, PARENT_NAME);
    OneStep(FRESH.Step(first, PARENT_NAME), second, PARENT_NAME);
    var p := Unmarshalled(EMPTY, PARENT_FIRST, PARENT_NAME).0;
    assert HasText(p, "trace.parent_id");
  }

  lemma RootedEmpty()
    ensures Rooted(map[]) == map[ROOT := Bool(true)]
  {
    SpecialFields();
    hide KindOf;
  }

  const CLEARED: seq<Pair> := [("trace.trace_id", Str("t")), (TRACE_ID, Str(""))]
  const TRACE_NAME := Names(["trace.trace_id"], [], [])

  /** An explicit trace id that is empty clears the one that a field gave; marshalled, it is left out. */
  lemma TraceIdComesBack()
    ensures DistinctKeys(CLEARED)
    ensures var (p, ok) := Unmarshalled(EMPTY, CLEARED, TRACE_NAME);
      ok && p.At(TRACE_ID) == None && !Consistent(p, TRACE_NAME)
  {
    NotMeta();
    SpecialFields();
    RootedEmpty();
    hide StringField, BoolField, Int64Field;
    var first, second := CLEARED[0], CLEARED[1];
    assert CLEARED == [first] + [second];
    StepsConcat(FRESH, [first], [second], TRACE_NAME);
    OneStep(FRESH, first, TRACE_NAME);
    OneStep(FRESH.Step(first, TRACE_NAME), second, TRACE_NAME);
    var p := Unmarshalled(EMPTY, CLEARED, TRACE_NAME).0;
    assert HasText(p, "trace.trace_id");
  }

  /** Reading what MarshalMsg appended, to its end, and extracting it: the map is restored exactly when the ids
      were consistent. */
  lemma MarshalledReadsBack(p: Contents, buf: seq<Cell>, out: seq<Cell>, names: Names)
    requires PlainOnce(p.data, p.memo) && SlotsTyped(p.slots)
    requires WrittenCount(p) <= MAP16_MAX && IsMarshalled(p, buf, out)
    ensures |buf| <= |out| && out[..|buf|] == buf
    ensures var read := ReadMap(out[|buf|..]);
      && read.Some? && read.value.1 == [] && |read.value.0| == WrittenCount(p) && DistinctKeys(read.value.0)
      && var (q, ok) := Unmarshalled(EMPTY, read.value.0, names);
         ok && ((forall key :: q.At(key) == AsWritten(p, key)) <==> Consistent(p, names))
  {
    hide Written, WrittenCount, Unmarshalled, SlotsTyped, Consistent, AsWritten, ReadMap, Header, Cells;
    var metaOrder, memoOrder :| Orders(p, metaOrder, memoOrder)
      && |Written(p, metaOrder, memoOrder)| == WrittenCount(p)
      && out == buf + Header(WrittenCount(p)) + Cells(Written(p, metaOrder, memoOrder));
    var written := Written(p, metaOrder, memoOrder);
    MapReadsBack(written, []);
    assert out[|buf|..] == Header(|written|) + Cells(written) + [];
    WrittenKeysAreDistinct(p, metaOrder, memoOrder);
    MarshalThenExtract(p, metaOrder, memoOrder, names);
  }

  lemma AssignedTyped(slots: Slots, key: string, v: Value)
    requires SlotsTyped(slots)
    ensures SlotsTyped(Assigned(slots, key, v)) && SlotsTyped(slots - {key}) && SlotsTyped(Read(slots, key, v).0)
  {
    hide StringField, BoolField, Int64Field;
  }

  lemma {:induction false} StepsTyped(scan: Scan, data: seq<Pair>, names: Names)
    requires SlotsTyped(scan.slots)
    ensures SlotsTyped(scan.Steps(data, names).slots)
    decreases |data|
  {
    hide KindOf, Assigned, Read, SlotsTyped;
    if data != [] {
      var n := |data| - 1;
      StepsTyped(scan, data[..n], names);
      var slots := scan.Steps(data[..n], names).slots;
      AssignedTyped(slots, data[n].0, data[n].1);
      AssignedTyped(slots, TRACE_ID, data[n].1);
      AssignedTyped(slots, ROOT, Bool(false));
    }
  }

  lemma {:induction false} PulledTyped(p: Contents, toFind: set<string>, pairs: seq<Pair>, n: nat)
    requires SlotsTyped(p.slots)
    ensures SlotsTyped(p.Pulled(toFind, pairs, n).slots)
    decreases |pairs|
  {
    hide KindOf, Assigned, SlotsTyped;
    if n > 0 && pairs != [] {
      AssignedTyped(p.slots, pairs[0].0, pairs[0].1);
      PulledTyped(p.Set(pairs[0].0, pairs[0].1), toFind, pairs[1..], n - 1);
      PulledTyped(p, toFind, pairs[1..], n);
    }
  }

  /** What round trips ask of the dedicated fields holds after every extraction and every later call. */
  lemma {:induction false} DedicatedFieldsAreTyped(data: seq<Pair>, names: Names, ops: seq<Op>)
    ensures SlotsTyped(After(Unmarshalled(EMPTY, data, names).0, ops).slots)
    decreases |ops|
  {
    hide KindOf, Assigned, SlotsTyped;
    if ops == [] {
      assert SlotsTyped(EMPTY.slots) by { NothingTyped(); }
      AssignedTyped(EMPTY.slots, ROOT, Bool(true));
      StepsTyped(FRESH, data, names);
      AssignedTyped(FRESH.Steps(data, names).slots, ROOT, Bool(true));
    } else {
      var n := |ops| - 1;
      DedicatedFieldsAreTyped(data, names, ops[..n]);
      var p := After(Unmarshalled(EMPTY, data, names).0, ops[..n]);
      match ops[n]
      case Put(key, value) => AssignedTyped(p.slots, key, value);
      case Memoize(keys) => PulledTyped(p, p.ToFind(keys), p.data, |p.ToFind(keys)|);
    }
  }

  lemma NothingTyped()
    ensures SlotsTyped(map[])
  {
  }
}
