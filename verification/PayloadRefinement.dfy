/** What reading and memoizing do to the map that a payload stands for. */
module PayloadRefinement {
  import opened Options
  import opened Fields
  import opened PayloadSpec

  /** The list of missing fields hides nothing: Get and Exists answer as the map does. */
  ghost predicate Honest(p: Contents) {
    forall key :: p.Seen(key) == p.At(key)
  }

  lemma HonestByMissing(p: Contents)
    requires forall k :: k in p.missing && !IsMeta(k) && k !in p.memo ==> Find(p.data, k).None?
    ensures Honest(p)
  {
  }

  lemma {:induction false} FindsOnly(pairs: seq<Pair>, key: string)
    ensures Find(pairs, key).None? ==> forall i :: 0 <= i < |pairs| ==> pairs[i].0 != key
    ensures Find(pairs, key).Some? ==> exists i :: 0 <= i < |pairs| && pairs[i] == (key, Find(pairs, key).value)
  {
    if pairs != [] {
      FindsOnly(pairs[1..], key);
      assert forall i :: 0 < i < |pairs| ==> pairs[i] == pairs[1..][i - 1];
      if pairs[0].0 == key {
        assert pairs[0] == (key, Find(pairs, key).value);
      } else if Find(pairs, key).Some? {
        var i :| 0 <= i < |pairs[1..]| && pairs[1..][i] == (key, Find(pairs, key).value);
        assert pairs[i + 1] == (key, Find(pairs, key).value);
      }
    }
  }

  /** With distinct keys, a pair is found where it is. */
  lemma FindsPair(pairs: seq<Pair>, i: nat)
    requires DistinctKeys(pairs) && i < |pairs|
    ensures Find(pairs, pairs[i].0) == Some(pairs[i].1)
  {
    FindsOnly(pairs, pairs[i].0);
  }

  /** Extraction takes the i-th pair as the trace id or as a parent id. */
  ghost predicate TakenAt(start: Scan, data: seq<Pair>, names: Names, i: nat)
    requires i < |data|
  {
    var slots := start.Steps(data[..i], names).slots;
    NamesTrace(slots, data[i], names) || NamesParent(slots, data[i], names)
  }

  const FRESH := Scan(Rooted(map[]), map[], [], true)

  /** A sampling key is taken for an id, and so not memoized. */
  ghost predicate TakesSamplingKey(data: seq<Pair>, names: Names) {
    exists i :: 0 <= i < |data| && data[i].0 in names.sampling && !IsMeta(data[i].0) && TakenAt(FRESH, data, names, i)
  }

  lemma StepsSnoc(start: Scan, data: seq<Pair>, i: nat, names: Names)
    requires i < |data|
    ensures start.Steps(data[..i + 1], names) == start.Steps(data[..i], names).Step(data[i], names)
  {
    assert data[..i + 1][..i] == data[..i];
  }

  lemma StepsNone(start: Scan, data: seq<Pair>, names: Names)
    ensures start.Steps(data[..0], names) == start
  {
  }

  lemma MemoGrows(scan: Scan, p: Pair, names: Names)
    ensures var memo := scan.Step(p, names).memo; memo == scan.memo || (!IsMeta(p.0) && memo == scan.memo[p.0 := p.1])
  {
    hide KindOf, TypeIsCorrect, Read, Assigned;
  }

  ghost predicate IsPair(data: seq<Pair>, i: nat, k: string, v: Value) {
    exists j :: 0 <= j < i && j < |data| && data[j] == (k, v)
  }

  lemma StillPair(data: seq<Pair>, i: nat, k: string, v: Value)
    ensures IsPair(data, i, k, v) ==> IsPair(data, i + 1, k, v)
    ensures i < |data| && data[i] == (k, v) ==> IsPair(data, i + 1, k, v)
  {
  }

  /** Memoized fields are pairs of the data, and never metadata. */
  lemma {:induction false} MemoIsData(start: Scan, data: seq<Pair>, i: nat, names: Names)
    requires start.memo == map[] && i <= |data|
    ensures var scan := start.Steps(data[..i], names);
      forall k :: k in scan.memo ==> !IsMeta(k) && IsPair(data, i, k, scan.memo[k])
  {
    hide IsMeta, Scan.Step, IsPair;
    if i > 0 {
      MemoIsData(start, data, i - 1, names);
      StepsSnoc(start, data, i - 1, names);
      MemoGrows(start.Steps(data[..i - 1], names), data[i - 1], names);
      var scan := start.Steps(data[..i], names);
      forall k | k in scan.memo ensures !IsMeta(k) && IsPair(data, i, k, scan.memo[k]) {
        StillPair(data, i - 1, k, scan.memo[k]);
      }
    }
  }

  /** A sampling key that was seen is memoized, or taken for an id, unless enough were found. */
  lemma {:induction false} SeenSamplingKeys(start: Scan, data: seq<Pair>, i: nat, names: Names)
    requires i <= |data| && start.Steps(data[..i], names).ok
    ensures var scan := start.Steps(data[..i], names);
      forall j :: 0 <= j < i && data[j].0 in names.sampling && !IsMeta(data[j].0) && !TakenAt(start, data, names, j) ==>
        data[j].0 in scan.memo || |scan.found| >= |names.sampling|
  {
    hide KindOf, TypeIsCorrect, Read, Assigned;
    if i > 0 {
      StepsSnoc(start, data, i - 1, names);
      SeenSamplingKeys(start, data, i - 1, names);
    }
  }

  lemma FoundGrows(start: Scan, data: seq<Pair>, i: nat, names: Names)
    requires i < |data|
    ensures var was, found := start.Steps(data[..i], names).found, start.Steps(data[..i + 1], names).found;
      found == was || (found == was + [data[i].0] && data[i].0 in names.sampling && !TakenAt(start, data, names, i))
  {
    hide KindOf, TypeIsCorrect, Read, Assigned;
    StepsSnoc(start, data, i, names);
  }

  ghost predicate AmongFirst(data: seq<Pair>, i: nat, k: string) {
    exists j :: 0 <= j < i && j < |data| && data[j].0 == k
  }

  /** The keys found are different sampling keys of the data, none of them taken for an id. */
  lemma {:induction false} FoundKeys(start: Scan, data: seq<Pair>, i: nat, names: Names)
    requires DistinctKeys(data) && start.found == [] && i <= |data|
    ensures var found := start.Steps(data[..i], names).found;
      && (forall a, b :: 0 <= a < b < |found| ==> found[a] != found[b])
      && (forall k :: k in found ==> k in names.sampling && AmongFirst(data, i, k))
      && (forall j :: 0 <= j < i && TakenAt(start, data, names, j) ==> data[j].0 !in found)
  {
    hide Scan.Steps, TakenAt;
    if i > 0 {
      FoundGrows(start, data, i - 1, names);
      FoundKeys(start, data, i - 1, names);
      assert !AmongFirst(data, i - 1, data[i - 1].0);
      var was := start.Steps(data[..i - 1], names).found;
      assert forall k :: AmongFirst(data, i - 1, k) ==> AmongFirst(data, i, k);
      forall j | 0 <= j < i && TakenAt(start, data, names, j)
        ensures data[j].0 !in start.Steps(data[..i], names).found
      {
        if j == i - 1 {
          assert data[j].0 !in was;
        }
      }
    } else {
      StepsNone(start, data, names);
    }
  }

  lemma {:induction false} DistinctFit(s: seq<string>, keys: set<string>)
    requires (forall a, b :: 0 <= a < b < |s| ==> s[a] != s[b]) && forall k :: k in s ==> k in keys
    ensures |s| <= |keys|
  {
    if s != [] {
      var n := |s| - 1;
      DistinctFit(s[..n], keys - {s[n]});
    }
  }

  lemma {:induction false} ElementsFit(s: seq<string>)
    ensures |Elements(s)| <= |s|
  {
    if s != [] {
      var n := |s| - 1;
      ElementsFit(s[..n]);
      assert s == s[..n] + [s[n]];
      ElementsSnoc(s[..n], s[n]);
    }
  }

  /** After extraction, the list of missing fields hides nothing unless a sampling key was taken for an id. */
  lemma UntakenIsHonest(data: seq<Pair>, names: Names)
    requires Unmarshalled(EMPTY, data, names).1 && !TakesSamplingKey(data, names)
    ensures Honest(Unmarshalled(EMPTY, data, names).0)
  {
    hide KindOf, Scan.Step, Rooted;
    var p := Unmarshalled(EMPTY, data, names).0;
    assert data[..|data|] == data;
    SeenSamplingKeys(FRESH, data, |data|, names);
    forall k | k in p.missing && !IsMeta(k) && k !in p.memo ensures Find(p.data, k).None? {
      FindsOnly(data, k);
    }
    HonestByMissing(p);
  }

  /** With distinct keys, it hides a field that is there exactly when a sampling key was taken for an id. */
  lemma ExtractionIsHonest(data: seq<Pair>, names: Names)
    requires DistinctKeys(data) && Unmarshalled(EMPTY, data, names).1
    ensures Honest(Unmarshalled(EMPTY, data, names).0) <==> !TakesSamplingKey(data, names)
  {
    hide Scan.Step, Unmarshalled, Honest;
    if TakesSamplingKey(data, names) {
      var i :| 0 <= i < |data| && data[i].0 in names.sampling && !IsMeta(data[i].0) && TakenAt(FRESH, data, names, i);
      TakenIsHidden(data, names, i);
    } else {
      UntakenIsHonest(data, names);
    }
  }

  lemma TakenIsHidden(data: seq<Pair>, names: Names, i: nat)
    requires DistinctKeys(data) && Unmarshalled(EMPTY, data, names).1
    requires i < |data| && data[i].0 in names.sampling && !IsMeta(data[i].0) && TakenAt(FRESH, data, names, i)
    ensures !Honest(Unmarshalled(EMPTY, data, names).0)
  {
    hide KindOf, Scan.Step, Rooted;
    var key := data[i].0;
    var p, scan := Unmarshalled(EMPTY, data, names).0, FRESH.Steps(data, names);
    assert data[..|data|] == data;
    FoundKeys(FRESH, data, |data|, names);
    DistinctFit(scan.found, Elements(names.sampling) - {key});
    ElementsFit(names.sampling);
    MemoIsFound(FRESH, data, |data|, names);
    FindsPair(data, i);
    assert key in p.missing && key !in p.memo;
    assert p.Seen(key) != p.At(key);
  }

  lemma {:induction false} MemoIsFound(start: Scan, data: seq<Pair>, i: nat, names: Names)
    requires start.memo == map[] && i <= |data|
    ensures var scan := start.Steps(data[..i], names); forall k :: k in scan.memo ==> k in scan.found
  {
    hide KindOf, TypeIsCorrect, Read, Assigned;
    if i > 0 {
      StepsSnoc(start, data, i - 1, names);
      MemoIsFound(start, data, i - 1, names);
    }
  }

  /** No sampling key, other than metadata, has the name of an id. */
  predicate NamesApart(names: Names) {
    forall k :: k in names.sampling && !IsMeta(k) ==> k !in names.trace && k !in names.parent
  }

  /** The list hides nothing of any data exactly when the names are apart. */
  lemma HonestNames(names: Names)
    ensures NamesApart(names) <==>
            forall data: seq<Pair> :: Unmarshalled(EMPTY, data, names).1 ==> Honest(Unmarshalled(EMPTY, data, names).0)
  {
    hide Unmarshalled, Honest, Scan.Step, KindOf;
    forall data: seq<Pair> | Unmarshalled(EMPTY, data, names).1 && NamesApart(names)
      ensures Honest(Unmarshalled(EMPTY, data, names).0)
    {
      UntakenIsHonest(data, names);
    }
    if !NamesApart(names) {
      var k :| k in names.sampling && !IsMeta(k) && (k in names.trace || k in names.parent);
      IdIsTaken(k, names);
      ExtractionIsHonest([(k, Str("t"))], names);
    }
  }

  lemma IdIsTaken(k: string, names: Names)
    requires k in names.sampling && !IsMeta(k) && (k in names.trace || k in names.parent)
    ensures DistinctKeys([(k, Str("t"))]) && Unmarshalled(EMPTY, [(k, Str("t"))], names).1
    ensures TakesSamplingKey([(k, Str("t"))], names)
  {
    var data := [(k, Str("t"))];
    SpecialFields();
    hide KindOf;
    assert data[..0] == [];
    assert FRESH.Steps(data, names) == FRESH.Step(data[0], names);
    assert TakenAt(FRESH, data, names, 0);
  }

  /** A name that is both: the field is there and cannot be seen. */
  lemma SamplingByTraceIdIsHidden()
    ensures var names := Names(["trace.trace_id"], [], ["trace.trace_id"]);
      var (p, ok) := Unmarshalled(EMPTY, [("trace.trace_id", Str("t"))], names);
      ok && p.At("trace.trace_id") == Some(Str("t")) && p.Seen("trace.trace_id") == None
  {
    var data, names := [("trace.trace_id", Str("t"))], Names(["trace.trace_id"], [], ["trace.trace_id"]);
    NotMeta();
    SpecialFields();
    hide KindOf;
    assert data[..0] == [];
    assert FRESH.Steps(data, names) == FRESH.Step(data[0], names);
    assert NamesTrace(FRESH.slots, data[0], names);
  }

  lemma NotMeta()
    ensures !IsMeta("trace.trace_id") && !IsMeta("trace.parent_id") && !IsMeta("a") && !IsMeta("b")
  {
    if IsMeta("trace.trace_id") {
      MetaKeysHaveThePrefix("trace.trace_id");
    }
    if IsMeta("trace.parent_id") {
      MetaKeysHaveThePrefix("trace.parent_id");
    }
    if IsMeta("a") {
      MetaKeysHaveThePrefix("a");
    }
    if IsMeta("b") {
      MetaKeysHaveThePrefix("b");
    }
  }

  /** What extraction makes of a metadata field: a value of an accepted type, and no default. */
  function AsMeta(key: string, v: Option<Value>): Option<Value> {
    match v
    case None => None
    case Some(v) => if ReadsAsMeta((key, v)) then Replaced(None, key, Signed(v)) else None
  }

  function Signed(v: Value): Value {
    if v.Uint64? then Int64(v.u) else v
  }

  /** One pair changes a dedicated field other than the ids only when it is its own. */
  lemma StepAt(scan: Scan, p: Pair, names: Names, key: string)
    requires scan.ok && scan.Step(p, names).ok && key != TRACE_ID && key != ROOT && IsMeta(key)
    ensures var slots, slots' := scan.slots, scan.Step(p, names).slots;
      if p.0 != key || !ReadsAsMeta(p) then SlotOf(slots', key) == SlotOf(slots, key)
      else SlotOf(slots, key) == None ==> SlotOf(slots', key) == AsMeta(key, Some(p.1))
  {
    hide StringField, BoolField, Int64Field;
  }

  function SlotOf(slots: Slots, key: string): Option<Value> {
    if key in slots then Some(slots[key]) else None
  }

  lemma {:induction false} DedicatedAt(data: seq<Pair>, i: nat, names: Names, key: string)
    requires DistinctKeys(data) && i <= |data| && FRESH.Steps(data[..i], names).ok
    requires key != TRACE_ID && key != ROOT && IsMeta(key)
    ensures SlotOf(FRESH.Steps(data[..i], names).slots, key) == AsMeta(key, Find(data[..i], key))
  {
    hide KindOf, Scan.Step, AsMeta, ReadsAsMeta;
    if i == 0 {
      RootedAt(key);
    } else {
      var p, scan := data[i - 1], FRESH.Steps(data[..i - 1], names);
      StepsSnoc(FRESH, data, i - 1, names);
      FailureStays(scan, p, names);
      DedicatedAt(data, i - 1, names, key);
      StepAt(scan, p, names, key);
      FindSnoc(data, i - 1, key);
      if p.0 == key {
        FoundNowhere(data, i - 1);
        NoMeta(key, p.1);
      }
    }
  }

  lemma RootedAt(key: string)
    requires key != TRACE_ID && key != ROOT
    ensures SlotOf(FRESH.slots, key) == None && AsMeta(key, None) == None
  {
    SpecialFields();
    hide KindOf;
  }

  lemma NoMeta(key: string, v: Value)
    ensures !ReadsAsMeta((key, v)) ==> AsMeta(key, Some(v)) == None
    ensures AsMeta(key, None) == None
  {
  }

  lemma FailureStays(scan: Scan, p: Pair, names: Names)
    ensures scan.Step(p, names).ok ==> scan.ok
  {
  }

  lemma {:induction false} FindSnoc(pairs: seq<Pair>, i: nat, key: string)
    requires i < |pairs|
    ensures Find(pairs[..i + 1], key)
            == if Find(pairs[..i], key).None? && pairs[i].0 == key then Some(pairs[i].1) else Find(pairs[..i], key)
  {
    if i > 0 {
      assert pairs[..i + 1][1..] == pairs[1..][..i] && pairs[..i][1..] == pairs[1..][..i - 1];
      FindSnoc(pairs[1..], i - 1, key);
    }
  }

  lemma FoundNowhere(data: seq<Pair>, i: nat)
    requires DistinctKeys(data) && i < |data|
    ensures Find(data[..i], data[i].0).None?
  {
    FindsOnly(data[..i], data[i].0);
  }

  lemma MemoizesFirst(scan: Scan, p: Pair, names: Names)
    ensures var memo := scan.Step(p, names).memo;
      memo == scan.memo
      || (&& scan.ok && p.0 in names.sampling && !IsMeta(p.0) && p.0 !in scan.memo && |scan.found| < |names.sampling|
          && memo == scan.memo[p.0 := p.1])
  {
    hide KindOf, TypeIsCorrect, Read, Assigned;
  }

  /** When the names are apart, it is the first pair of a key that is memoized. */
  lemma {:induction false} FirstIsMemoized(data: seq<Pair>, i: nat, names: Names)
    requires NamesApart(names) && i <= |data|
    ensures var memo := FRESH.Steps(data[..i], names).memo;
      forall k :: k in memo ==> Find(data[..i], k) == Some(memo[k])
  {
    if i > 0 {
      var p, scan := data[i - 1], FRESH.Steps(data[..i - 1], names);
      FirstIsMemoized(data, i - 1, names);
      StepsSnoc(FRESH, data, i - 1, names);
      MemoizesFirst(scan, p, names);
      if scan.Step(p, names).memo != scan.memo {
        SeenSamplingKeys(FRESH, data, i - 1, names);
        FindsOnly(data[..i - 1], p.0);
      }
      hide Scan.Step, KindOf, NamesApart;
      forall k | k in scan.Step(p, names).memo ensures Find(data[..i], k) == Some(scan.Step(p, names).memo[k]) {
        FindSnoc(data, i - 1, k);
      }
    }
  }

  /** The map that an extracted payload stands for: the pairs of the data, where metadata fields (apart from the
      trace id and the root flag, which depend on other fields) are read by their type. */
  lemma ExtractedMap(data: seq<Pair>, names: Names, key: string)
    requires Unmarshalled(EMPTY, data, names).1
    ensures var p := Unmarshalled(EMPTY, data, names).0;
      && (!IsMeta(key) && (DistinctKeys(data) || NamesApart(names)) ==> p.At(key) == Find(data, key))
      && (IsMeta(key) && DistinctKeys(data) && key != TRACE_ID && key != ROOT ==>
            p.At(key) == AsMeta(key, Find(data, key)))
  {
    hide KindOf, Scan.Step, AsMeta;
    assert data[..|data|] == data;
    if IsMeta(key) {
      if DistinctKeys(data) && key != TRACE_ID && key != ROOT {
        DedicatedAt(data, |data|, names, key);
      }
    } else if NamesApart(names) {
      FirstIsMemoized(data, |data|, names);
    } else if DistinctKeys(data) {
      MemoIsData(FRESH, data, |data|, names);
      var memo := FRESH.Steps(data, names).memo;
      if key in memo {
        var j :| 0 <= j < |data| && data[j] == (key, memo[key]);
        FindsPair(data, j);
      }
    }
  }

  lemma AssignedApart(slots: Slots, k: string, v: Value, key: string)
    requires k != key
    ensures var s := Assigned(slots, k, v); (key in s <==> key in slots) && (key in s ==> s[key] == slots[key])
  {
  }

  /** The same dedicated and memoized field. */
  predicate Alike(p: Contents, q: Contents, key: string) {
    && (key in p.memo <==> key in q.memo) && (key in p.memo ==> p.memo[key] == q.memo[key])
    && (key in p.slots <==> key in q.slots) && (key in p.slots ==> p.slots[key] == q.slots[key])
  }

  lemma AlikeAfterSet(p: Contents, q: Contents, key: string, v: Value)
    requires Alike(p, q, key)
    ensures Alike(p.Set(key, v), q.Set(key, v), key)
  {
    hide IsMeta, Assigned;
    if IsMeta(key) {
      AssignedAlike(p.slots, q.slots, key, v);
    }
  }

  lemma AssignedAlike(a: Slots, b: Slots, key: string, v: Value)
    requires (key in a <==> key in b) && (key in a ==> a[key] == b[key])
    ensures var a', b' := Assigned(a, key, v), Assigned(b, key, v);
      (key in a' <==> key in b') && (key in a' ==> a'[key] == b'[key])
  {
    hide KindOf;
  }

  /** How many pairs have a key to find. */
  function Hits(toFind: set<string>, pairs: seq<Pair>): nat {
    if pairs == [] then 0 else (if pairs[0].0 in toFind then 1 else 0) + Hits(toFind, pairs[1..])
  }

  /** Pulling goes on behind some pairs as long as these do not use it up, and stops there if they do. */
  lemma {:induction false} PulledOn(p: Contents, toFind: set<string>, a: seq<Pair>, b: seq<Pair>, n: nat)
    requires n >= Hits(toFind, a)
    ensures p.Pulled(toFind, a + b, n) == p.Pulled(toFind, a, n).Pulled(toFind, b, n - Hits(toFind, a))
    decreases |a|
  {
    hide KindOf, Assigned;
    if a == [] {
      assert a + b == b;
    } else {
      assert (a + b)[1..] == a[1..] + b;
      if a[0].0 in toFind {
        PulledOn(p.Set(a[0].0, a[0].1), toFind, a[1..], b, n - 1);
      } else {
        PulledOn(p, toFind, a[1..], b, n);
      }
    }
  }

  /** Pairs that leave a field as it is. */
  ghost predicate LeaveAlone(p: Contents, pairs: seq<Pair>, key: string) {
    forall i :: 0 <= i < |pairs| && pairs[i].0 == key ==> Alike(p, p.Set(key, pairs[i].1), key)
  }

  lemma LeftAlone(p: Contents, q: Contents, pairs: seq<Pair>, key: string)
    requires LeaveAlone(p, pairs, key) && Alike(p, q, key) && pairs != []
    ensures LeaveAlone(q, pairs[1..], key)
  {
    hide Contents.Set, Alike;
    forall i | 0 <= i < |pairs| - 1 && pairs[1..][i].0 == key ensures Alike(q, q.Set(key, pairs[1..][i].1), key) {
      assert pairs[i + 1] == pairs[1..][i];
      AlikeAfterSet(p, q, key, pairs[i + 1].1);
      AlikeTwice(p, q, p.Set(key, pairs[i + 1].1), q.Set(key, pairs[i + 1].1), key);
    }
  }

  lemma AlikeTwice(p: Contents, q: Contents, p': Contents, q': Contents, key: string)
    requires Alike(p, q, key) && Alike(p, p', key) && Alike(p', q', key)
    ensures Alike(q, q', key)
  {
  }

  lemma SetApart(p: Contents, k: string, v: Value, key: string)
    requires k != key
    ensures Alike(p, p.Set(k, v), key)
  {
    hide IsMeta, Assigned;
    if IsMeta(k) {
      AssignedApart(p.slots, k, v, key);
    }
  }

  lemma {:induction false} PullingLeavesAlone(p: Contents, toFind: set<string>, pairs: seq<Pair>, n: nat, key: string)
    requires key in toFind ==> LeaveAlone(p, pairs, key)
    ensures Alike(p, p.Pulled(toFind, pairs, n), key)
    decreases |pairs|
  {
    hide Contents.Set, LeaveAlone, Alike;
    if n == 0 || pairs == [] {
      AlikeItself(p, key);
    } else {
      var k, v := pairs[0].0, pairs[0].1;
      if k in toFind {
        if k == key {
          LeavesFirst(p, pairs, key);
        } else {
          SetApart(p, k, v, key);
        }
        if key in toFind {
          LeftAlone(p, p.Set(k, v), pairs, key);
        }
        PullingLeavesAlone(p.Set(k, v), toFind, pairs[1..], n - 1, key);
        AlikeOn(p, p.Set(k, v), p.Set(k, v).Pulled(toFind, pairs[1..], n - 1), key);
      } else {
        if key in toFind {
          AlikeItself(p, key);
          LeftAlone(p, p, pairs, key);
        }
        PullingLeavesAlone(p, toFind, pairs[1..], n, key);
      }
    }
  }

  lemma AlikeItself(p: Contents, key: string)
    ensures Alike(p, p, key)
  {
  }

  lemma AlikeOn(p: Contents, q: Contents, r: Contents, key: string)
    requires Alike(p, q, key) && Alike(q, r, key)
    ensures Alike(p, r, key)
  {
  }

  lemma LeavesFirst(p: Contents, pairs: seq<Pair>, key: string)
    requires LeaveAlone(p, pairs, key) && pairs != [] && pairs[0].0 == key
    ensures Alike(p, p.Set(key, pairs[0].1), key)
  {
  }

  lemma {:induction false} HitsAgree(a: set<string>, b: set<string>, pairs: seq<Pair>)
    requires forall i :: 0 <= i < |pairs| ==> (pairs[i].0 in a <==> pairs[i].0 in b)
    ensures Hits(a, pairs) == Hits(b, pairs)
  {
    if pairs != [] {
      HitsAgree(a, b, pairs[1..]);
    }
  }

  /** Without repeated keys there are no more hits than keys to find. */
  lemma {:induction false} HitsFit(toFind: set<string>, pairs: seq<Pair>)
    requires forall i, j :: 0 <= i < j < |pairs| && pairs[j].0 in toFind ==> pairs[i].0 != pairs[j].0
    ensures Hits(toFind, pairs) <= |toFind|
    decreases |pairs|
  {
    if pairs != [] {
      var k := pairs[0].0;
      HitsAgree(toFind, toFind - {k}, pairs[1..]);
      HitsFit(toFind - {k}, pairs[1..]);
    }
  }

  predicate Open(p: Contents, key: string) {
    key !in p.memo && key !in p.missing
  }

  /** Repeated keys do not disturb the field: every pair that repeats an earlier one, and that memoizing might count,
      comes behind the first pair of the field, and does not give the field another value. */
  ghost predicate Steady(p: Contents, key: string) {
    Open(p, key) ==> forall i :: 0 <= i < |p.data| ==> HarmlessAt(p, key, i)
  }

  ghost predicate HarmlessAt(p: Contents, key: string, i: nat)
    requires i < |p.data|
  {
    var k := p.data[i].0;
    Open(p, k) && AmongFirst(p.data, i, k) ==>
      Find(p.data[..i], key) == Find(p.data, key) && (k == key ==> Find(p.data, key) == Some(p.data[i].1))
  }

  lemma DistinctIsSteady(p: Contents, key: string)
    requires DistinctKeys(p.data)
    ensures Steady(p, key)
  {
  }

  lemma {:induction false} FirstAt(pairs: seq<Pair>, key: string) returns (j: nat)
    requires Find(pairs, key).Some?
    ensures j < |pairs| && pairs[j] == (key, Find(pairs, key).value)
    ensures forall i :: 0 <= i < j ==> pairs[i].0 != key
  {
    if pairs[0].0 == key {
      j := 0;
      assert pairs[0] == (key, pairs[0].1);
    } else {
      var i := FirstAt(pairs[1..], key);
      j := i + 1;
      assert forall q :: 0 < q < |pairs| ==> pairs[q] == pairs[1..][q - 1];
    }
  }

  /** Pairs in front of the first one of a field repeat nothing that is looked for. */
  lemma FrontRoom(p: Contents, toFind: set<string>, j: nat, key: string)
    requires Steady(p, key) && key in toFind && (forall k :: k in toFind ==> Open(p, k)) && j < |p.data|
    requires p.data[j].0 == key && forall i :: 0 <= i < j ==> p.data[i].0 != key
    ensures Hits(toFind, p.data[..j]) < |toFind|
  {
    var a := p.data[..j];
    forall i, l | 0 <= i < l < |a| && a[l].0 in toFind - {key} ensures a[i].0 != a[l].0 {
      assert HarmlessAt(p, key, l);
      FindsOnly(p.data[..l], key);
      FindsOnly(p.data, key);
    }
    HitsFit(toFind - {key}, a);
    HitsAgree(toFind, toFind - {key}, a);
  }

  lemma SetTwice(p: Contents, key: string, v: Value)
    ensures Alike(p.Set(key, v), p.Set(key, v).Set(key, v), key)
  {
    hide StringField, BoolField, Int64Field;
  }

  lemma LaterAreSame(p: Contents, q: Contents, j: nat, key: string, v: Value)
    requires Steady(p, key) && Open(p, key) && j < |p.data| && p.data[j].0 == key && Find(p.data, key) == Some(v)
    ensures LeaveAlone(q.Set(key, v), p.data[j + 1..], key)
  {
    var rest := p.data[j + 1..];
    forall i | 0 <= i < |rest| && rest[i].0 == key
      ensures Alike(q.Set(key, v), q.Set(key, v).Set(key, rest[i].1), key)
    {
      assert p.data[j + 1 + i] == rest[i] && HarmlessAt(p, key, j + 1 + i);
      SetTwice(q, key, v);
    }
  }

  /** What pulling does to a field that repeated keys do not disturb. */
  lemma PulledAt(p: Contents, toFind: set<string>, key: string)
    requires Steady(p, key) && forall k :: k in toFind ==> Open(p, k)
    ensures var q, v := p.Pulled(toFind, p.data, |toFind|), if key in toFind then Find(p.data, key) else None;
      if v.None? then Alike(p, q, key) else Alike(p.Set(key, v.value), q, key)
  {
    if key in toFind && Find(p.data, key).Some? {
      var v, n := Find(p.data, key).value, |toFind|;
      var j := FirstAt(p.data, key);
      var a, b := p.data[..j], p.data[j..];
      FrontRoom(p, toFind, j, key);
      hide Steady, Contents.Set, Alike;
      assert p.data == a + b && b[0] == (key, v) && b[1..] == p.data[j + 1..];
      PulledOn(p, toFind, a, b, n);
      var p1 := p.Pulled(toFind, a, n);
      PullingLeavesAlone(p, toFind, a, n, key);
      AlikeAfterSet(p, p1, key, v);
      LaterAreSame(p, p1, j, key, v);
      PullingLeavesAlone(p1.Set(key, v), toFind, b[1..], n - Hits(toFind, a) - 1, key);
      AlikeOn(p.Set(key, v), p1.Set(key, v), p.Pulled(toFind, p.data, n), key);
    } else {
      FindsOnly(p.data, key);
      PullingLeavesAlone(p, toFind, p.data, |toFind|, key);
    }
  }

  /** Pulling leaves data and list alone, memoizes no metadata, and unmemoizes nothing. */
  lemma {:induction false} PulledKeeps(p: Contents, toFind: set<string>, pairs: seq<Pair>, n: nat)
    ensures var q := p.Pulled(toFind, pairs, n);
      && q.data == p.data && q.missing == p.missing && p.memo.Keys <= q.memo.Keys
      && forall k :: k in q.memo && IsMeta(k) ==> k in p.memo
    decreases |pairs|
  {
    hide IsMeta, Assigned;
    if n > 0 && pairs != [] {
      PulledKeeps(p.Set(pairs[0].0, pairs[0].1), toFind, pairs[1..], n - 1);
      PulledKeeps(p, toFind, pairs[1..], n);
    }
  }

  /** The one answer that memoizing changes: a metadata field that the data holds is read again. */
  ghost predicate ReadAgain(p: Contents, keys: seq<string>, key: string) {
    IsMeta(key) && key in p.ToFind(keys) && Find(p.data, key).Some?
  }

  /** Memoizing answers every other key as before, and hides nothing that was not hidden. */
  lemma MemoizedAt(p: Contents, keys: seq<string>, key: string)
    requires Steady(p, key)
    ensures var q := p.Memoized(keys);
      && q.data == p.data
      && (if ReadAgain(p, keys, key) then q.At(key) == p.Set(key, Find(p.data, key).value).At(key)
          else q.At(key) == p.At(key))
      && (p.Seen(key) == p.At(key) ==> q.Seen(key) == q.At(key))
      && (!IsMeta(key) ==> q.Seen(key) == p.Seen(key))
  {
    hide KindOf, Assigned, Steady;
    PulledAt(p, p.ToFind(keys), key);
    PulledKeeps(p, p.ToFind(keys), p.data, |p.ToFind(keys)|);
  }

  lemma {:induction false} Longer(keys: set<string>) returns (n: nat)
    ensures forall k :: k in keys ==> |k| < n
  {
    n := 0;
    if keys != {} {
      var k :| k in keys;
      var m := Longer(keys - {k});
      n := if |k| < m then m else |k| + 1;
    }
  }

  /** There are always more keys that nothing has. */
  lemma FreshKeys(avoid: set<string>, n: nat) returns (keys: seq<string>)
    ensures |keys| == n && (forall i, j :: 0 <= i < j < n ==> keys[i] != keys[j])
    ensures forall k :: k in keys ==> k !in avoid
  {
    var m := Longer(avoid);
    keys := seq(n, i requires 0 <= i < n => seq(m + i, _ => 'x'));
    assert forall i :: 0 <= i < n ==> |keys[i]| == m + i;
  }

  lemma {:induction false} HitsSnoc(toFind: set<string>, pairs: seq<Pair>, i: nat)
    requires i < |pairs|
    ensures Hits(toFind, pairs[..i + 1]) == Hits(toFind, pairs[..i]) + if pairs[i].0 in toFind then 1 else 0
  {
    if i > 0 {
      HitsSnoc(toFind, pairs[1..], i - 1);
      assert pairs[..i + 1][1..] == pairs[1..][..i] && pairs[..i][1..] == pairs[1..][..i - 1];
    }
  }

  lemma {:induction false} SomeHits(toFind: set<string>, pairs: seq<Pair>, i: nat)
    requires i < |pairs| && pairs[i].0 in toFind
    ensures Hits(toFind, pairs) > 0
  {
    if i > 0 {
      SomeHits(toFind, pairs[1..], i - 1);
    }
  }

  /** Keys to memoize, the given ones among them, such that pulling ends just behind the i-th pair. */
  lemma KeysThatEndAt(p: Contents, i: nat, some: seq<string>) returns (keys: seq<string>)
    requires i < |p.data| && some != [] && p.data[i].0 == some[0] && (forall k :: k in some ==> Open(p, k))
    requires forall a, b :: 0 <= a < b < |some| ==> some[a] != some[b]
    requires forall a, q :: 0 < a < |some| && 0 <= q <= i ==> p.data[q].0 != some[a]
    requires |some| <= Hits({some[0]}, p.data[..i + 1])
    ensures var toFind := p.ToFind(keys);
      && (forall k :: k in some ==> k in toFind) && |toFind| == Hits(toFind, p.data[..i + 1])
  {
    var a := p.data[..i + 1];
    var h := Hits({some[0]}, a);
    var avoid := Elements(Keys(p.data)) + Elements(some) + p.memo.Keys + p.missing;
    var fresh' := FreshKeys(avoid, h - |some|);
    keys := some + fresh';
    forall a, b | 0 <= a < b < |keys| ensures keys[a] != keys[b] {
      assert b >= |some| ==> fresh'[b - |some|] == keys[b] && keys[b] in fresh';
      assert a < |some| ==> keys[a] in some;
    }
    ElementsCount(keys);
    var toFind := p.ToFind(keys);
    assert toFind == Elements(keys);
    forall q | 0 <= q < |a| ensures a[q].0 in toFind <==> a[q].0 in {some[0]} {
      assert a[q].0 == Keys(p.data)[q];
      assert keys[0] == some[0];
    }
    HitsAgree(toFind, {some[0]}, a);
  }

  lemma EndsAt(p: Contents, toFind: set<string>, i: nat)
    requires i < |p.data| && |toFind| == Hits(toFind, p.data[..i + 1])
    ensures p.Pulled(toFind, p.data, |toFind|) == p.Pulled(toFind, p.data[..i + 1], |toFind|)
  {
    assert p.data == p.data[..i + 1] + p.data[i + 1..];
    PulledOn(p, toFind, p.data[..i + 1], p.data[i + 1..], |toFind|);
  }

  /** A repeated pair that gives the field another value can be made the last one pulled. */
  lemma ChangedByRepeat(p: Contents, key: string, i: nat) returns (keys: seq<string>)
    requires !IsMeta(key) && Open(p, key) && i < |p.data| && p.data[i].0 == key
    ensures p.Memoized(keys).At(key) == Some(p.data[i].1)
  {
    var v := p.data[i].1;
    HitsSnoc({key}, p.data, i);
    keys := KeysThatEndAt(p, i, [key]);
    var toFind := p.ToFind(keys);
    assert key in toFind;
    EndsAt(p, toFind, i);
    HitsSnoc(toFind, p.data, i);
    var n := Hits(toFind, p.data[..i]);
    assert p.data[..i + 1] == p.data[..i] + [(key, v)];
    PulledOn(p, toFind, p.data[..i], [(key, v)], n + 1);
    var p1 := p.Pulled(toFind, p.data[..i], n + 1);
    assert p1.Pulled(toFind, [(key, v)], 1) == p1.Set(key, v).Pulled(toFind, [(key, v)][1..], 0);
  }

  /** A repeated pair in front of the first one of a field can use up what is pulled. */
  lemma HiddenByRepeat(p: Contents, key: string, i: nat) returns (keys: seq<string>)
    requires !IsMeta(key) && Open(p, key) && i < |p.data| && Open(p, p.data[i].0)
    requires AmongFirst(p.data, i, p.data[i].0) && p.data[i].0 != key && Find(p.data[..i], key).None?
    ensures p.Memoized(keys).Seen(key) == None
  {
    var k := p.data[i].0;
    var j :| 0 <= j < i && p.data[j].0 == k;
    HitsSnoc({k}, p.data, i);
    SomeHits({k}, p.data[..i], j);
    FindsOnly(p.data[..i], key);
    forall q | 0 <= q <= i ensures p.data[q].0 != key {
      assert q < i ==> p.data[..i][q] == p.data[q];
    }
    keys := KeysThatEndAt(p, i, [k, key]);
    var toFind := p.ToFind(keys);
    assert key in [k, key] && key in toFind;
    EndsAt(p, toFind, i);
    PullingLeavesAlone(p, toFind, p.data[..i + 1], |toFind|, key);
    PulledKeeps(p, toFind, p.data[..i + 1], |toFind|);
  }

  /** No list of keys changes or hides a field that is not metadata if and only if repeated keys do not disturb it. */
  lemma MemoizingIsExact(p: Contents, key: string)
    requires !IsMeta(key)
    ensures (forall keys :: p.Memoized(keys).Seen(key) == p.Seen(key)) <==> Steady(p, key)
  {
    hide KindOf, Contents.Memoized, Contents.Seen, Contents.At;
    if Steady(p, key) {
      forall keys ensures p.Memoized(keys).Seen(key) == p.Seen(key) {
        MemoizedAt(p, keys, key);
      }
    } else {
      var keys := Disturbing(p, key);
    }
  }

  lemma Disturbing(p: Contents, key: string) returns (keys: seq<string>)
    requires !IsMeta(key) && !Steady(p, key)
    ensures p.Memoized(keys).Seen(key) != p.Seen(key)
  {
    hide KindOf, Contents.Memoized;
    var i :| 0 <= i < |p.data| && !HarmlessAt(p, key, i);
    FindPrefix(p.data, i, key);
    FindsOnly(p.data[..i], key);
    if p.data[i].0 == key {
      keys := ChangedByRepeat(p, key, i);
    } else {
      keys := HiddenByRepeat(p, key, i);
    }
  }

  lemma {:induction false} FindPrefix(pairs: seq<Pair>, i: nat, key: string)
    requires i <= |pairs|
    ensures Find(pairs[..i], key).Some? ==> Find(pairs, key) == Find(pairs[..i], key)
  {
    if i > 0 && pairs[0].0 != key {
      assert pairs[..i][1..] == pairs[1..][..i - 1];
      FindPrefix(pairs[1..], i - 1, key);
    }
  }

  /** Memoizing a metadata field undoes what was set: the dedicated field is read from the old bytes. Extraction that
      looks for no sampling keys leaves a payload like that. */
  lemma MemoizingRevivesMetadata(names: Names)
    requires names.sampling == []
    ensures var key, (p, ok) := "meta.refinery.reason", Unmarshalled(EMPTY, OLD_REASON, names);
      && ok && p.Set(key, Str("new")).At(key) == Some(Str("new"))
      && p.Set(key, Str("new")).Memoized([key]).At(key) == Some(Str("old"))
  {
    var key, p := "meta.refinery.reason", Unmarshalled(EMPTY, OLD_REASON, names).0;
    assert StringField(key);
    OneExtracted(OLD_REASON[0], names);
    assert OLD_REASON == [OLD_REASON[0]];
    var q := p.Set(key, Str("new"));
    DistinctIsSteady(q, key);
    MemoizedAt(q, [key], key);
    assert key in q.ToFind([key]);
  }

  lemma OneExtracted(pair: Pair, names: Names)
    ensures FRESH.Steps([pair], names) == FRESH.Step(pair, names)
  {
    assert [pair][..0] == [];
  }

  const OLD_REASON: seq<Pair> := [("meta.refinery.reason", Str("old"))]

  /** Repeated keys: the second one is the one that is memoized, and it uses up the search for another field. */
  lemma RepeatedKeysDisturb()
    ensures var (p, ok) := Unmarshalled(EMPTY, REPEATED, Names([], [], []));
      && ok && p.Seen("a") == Some(Int64(1)) && p.Seen("b") == Some(Int64(3))
      && var q := p.Memoized(["a", "b"]);
         q.Seen("a") == Some(Int64(2)) && q.Seen("b") == None && q.At("b") == Some(Int64(3))
  {
    NotMeta();
    var names := Names([], [], []);
    PlainIsSkipped(REPEATED, names);
    var p := Unmarshalled(EMPTY, REPEATED, names).0;
    hide KindOf, Unmarshalled;
    assert p.ToFind(["a", "b"]) == {"a", "b"};
    assert REPEATED[1..] == [("a", Int64(2)), ("b", Int64(3))] && REPEATED[1..][1..] == [("b", Int64(3))];
  }

  /** Without names to look for, pairs that are not metadata are left where they are. */
  lemma {:induction false} PlainIsSkipped(data: seq<Pair>, names: Names)
    requires names == Names([], [], []) && forall i :: 0 <= i < |data| ==> !IsMeta(data[i].0)
    ensures FRESH.Steps(data, names) == FRESH
    decreases |data|
  {
    hide KindOf;
    if data != [] {
      PlainIsSkipped(data[..|data| - 1], names);
    }
  }

  const REPEATED: seq<Pair> := [("a", Int64(1)), ("a", Int64(2)), ("b", Int64(3))]

  /** Calls on a payload after extraction. */
  datatype Op = Put(key: string, value: Value) | Memoize(keys: seq<string>)

  function Done(p: Contents, op: Op): Contents {
    match op
    case Put(key, value) => p.Set(key, value)
    case Memoize(keys) => p.Memoized(keys)
  }

  function After(p: Contents, ops: seq<Op>): Contents {
    if ops == [] then p else Done(After(p, ops[..|ops| - 1]), ops[|ops| - 1])
  }

  /** A field as calls leave it: its value, and, for metadata, whether memoizing it has been settled. */
  datatype Field = Field(value: Option<Value>, settled: bool)

  function FieldOf(p: Contents, key: string): Field {
    Field(p.At(key), IsMeta(key) && (key in p.missing || key in p.memo))
  }

  /** The field of one map over any calls: it has the value last put; the first time that a metadata field is
      memoized, it takes the value that the data holds, if any. */
  function Meaning(first: Field, data: seq<Pair>, key: string, ops: seq<Op>): Field {
    if ops == [] then first
    else
      var was := Meaning(first, data, key, ops[..|ops| - 1]);
      match ops[|ops| - 1]
      case Put(k, v) => if k == key then was.(value := Replaced(was.value, key, v)) else was
      case Memoize(keys) => if IsMeta(key) && key in keys && !was.settled then Settled(was, data, key) else was
  }

  function Settled(was: Field, data: seq<Pair>, key: string): Field {
    match Find(data, key)
    case None => was.(settled := true)
    case Some(v) => Field(Replaced(was.value, key, v), true)
  }

  /** The field of a plain map: the value last put, where metadata fields take only values of their type and
      forget an empty one. */
  function LastPut(first: Option<Value>, key: string, ops: seq<Op>): Option<Value> {
    if ops == [] then first
    else
      var was := LastPut(first, key, ops[..|ops| - 1]);
      match ops[|ops| - 1]
      case Put(k, v) => if k == key then Replaced(was, key, v) else was
      case Memoize(_) => was
  }

  function Replaced(was: Option<Value>, key: string, v: Value): Option<Value> {
    match KindOf(key)
    case None => Some(v)
    case Some(StringKind) => if !v.Str? then was else if v.s == "" then None else Some(v)
    case Some(BoolKind) => if v.Bool? then Some(v) else was
    case Some(Int64Kind) => if !v.Int64? then was else if v.i == 0 then None else Some(v)
  }

  lemma SetAt(p: Contents, k: string, v: Value, key: string)
    ensures p.Set(k, v).At(key) == if k == key then Replaced(p.At(key), key, v) else p.At(key)
    ensures p.Seen(key) == p.At(key) ==> p.Set(k, v).Seen(key) == p.Set(k, v).At(key)
    ensures p.Set(k, v).data == p.data && p.Set(k, v).missing == p.missing
    ensures IsMeta(key) ==> (key in p.Set(k, v).memo <==> key in p.memo)
  {
    hide StringField, BoolField, Int64Field;
  }

  /** Memoizing settles exactly the metadata fields asked for. */
  lemma MemoizingSettles(p: Contents, keys: seq<string>, key: string)
    requires IsMeta(key)
    ensures FieldOf(p.Memoized(keys), key).settled == (FieldOf(p, key).settled || key in keys)
    ensures ReadAgain(p, keys, key) == (key in keys && !FieldOf(p, key).settled && Find(p.data, key).Some?)
  {
    hide KindOf, Assigned;
    var toFind := p.ToFind(keys);
    assert key in toFind <==> key in keys && Open(p, key);
    PulledKeeps(p, toFind, p.data, |toFind|);
  }

  /** No call opens a field, so that what is steady stays so. */
  lemma SteadyStays(p: Contents, op: Op, key: string)
    requires Steady(p, key)
    ensures Steady(Done(p, op), key) && Done(p, op).data == p.data
  {
    hide KindOf, Assigned;
    var q := Done(p, op);
    if op.Memoize? {
      PulledKeeps(p, p.ToFind(op.keys), p.data, |p.ToFind(op.keys)|);
    }
    assert forall k :: Open(q, k) ==> Open(p, k);
    assert forall i :: 0 <= i < |p.data| && HarmlessAt(p, key, i) ==> HarmlessAt(q, key, i);
  }

  /** After any calls of Set and MemoizeFields, Get and Exists answer as the one map does. */
  lemma {:induction false} PayloadRefinesMap(p: Contents, ops: seq<Op>, key: string)
    requires Steady(p, key) && p.Seen(key) == p.At(key)
    ensures var q := After(p, ops);
      && q.data == p.data && Steady(q, key) && q.Seen(key) == q.At(key)
      && FieldOf(q, key) == Meaning(FieldOf(p, key), p.data, key, ops)
    decreases |ops|
  {
    hide KindOf, IsMeta, Contents.Set, Contents.At, Contents.Seen, Contents.Memoized, Replaced, Steady;
    if ops != [] {
      var n := |ops| - 1;
      PayloadRefinesMap(p, ops[..n], key);
      var q := After(p, ops[..n]);
      SteadyStays(q, ops[n], key);
      match ops[n]
      case Put(k, v) =>
        SetAt(q, k, v, key);
      case Memoize(keys) =>
        MemoizedAt(q, keys, key);
        if IsMeta(key) {
          MemoizingSettles(q, keys, key);
          if ReadAgain(q, keys, key) {
            SetAt(q, key, Find(q.data, key).value, key);
          }
        }
    }
  }

  /** A field that is not metadata is that of one map after all calls if and only if repeated keys do not disturb it. */
  lemma RefinesExactly(p: Contents, key: string)
    requires !IsMeta(key) && p.Seen(key) == p.At(key)
    ensures Steady(p, key) <==>
            forall ops :: var q := After(p, ops);
              q.Seen(key) == q.At(key) && FieldOf(q, key) == Meaning(FieldOf(p, key), p.data, key, ops)
  {
    hide KindOf, IsMeta, Contents.At, Contents.Seen, Contents.Memoized, Steady;
    if Steady(p, key) {
      forall ops ensures var q := After(p, ops);
        q.Seen(key) == q.At(key) && FieldOf(q, key) == Meaning(FieldOf(p, key), p.data, key, ops)
      {
        PayloadRefinesMap(p, ops, key);
      }
    } else {
      var keys := Disturbing(p, key);
      OneMemoize(p, keys, key);
      var q := After(p, [Memoize(keys)]);
      assert !(q.Seen(key) == q.At(key) && FieldOf(q, key) == Meaning(FieldOf(p, key), p.data, key, [Memoize(keys)]));
    }
  }

  lemma OneMemoize(p: Contents, keys: seq<string>, key: string)
    requires !IsMeta(key)
    ensures After(p, [Memoize(keys)]) == p.Memoized(keys)
    ensures Meaning(FieldOf(p, key), p.data, key, [Memoize(keys)]) == FieldOf(p, key)
  {
    hide KindOf, Contents.Memoized;
    assert [Memoize(keys)][..0] == [];
  }

  /** A field that is not metadata, or that the data does not hold, or that no call memoizes, is that of a
      plain map. */
  lemma {:induction false} FieldsArePlain(first: Field, data: seq<Pair>, key: string, ops: seq<Op>)
    requires IsMeta(key) && Find(data, key).Some? ==>
               forall i :: 0 <= i < |ops| && ops[i].Memoize? ==> key !in ops[i].keys
    ensures Meaning(first, data, key, ops).value == LastPut(first.value, key, ops)
  {
    hide KindOf, Replaced;
    if ops != [] {
      FieldsArePlain(first, data, key, ops[..|ops| - 1]);
    }
  }
}
