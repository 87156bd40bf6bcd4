/** The recency order that the LRU cache promises: (key, value) pairs with distinct keys, newest first.
    These functions are the specification of the pointer structure in module Lru. */
module Recency {
  import opened Options

  type Order<K, V> = seq<(K, V)>

  predicate Has<K(==), V>(c: Order<K, V>, k: K) {
    exists i :: 0 <= i < |c| && c[i].0 == k
  }

  ghost function IndexOf<K, V>(c: Order<K, V>, k: K): (i: nat)
    requires Has(c, k)
    ensures i < |c| && c[i].0 == k
  {
    var i :| 0 <= i < |c| && c[i].0 == k;
    i
  }

  function Cut<T>(s: seq<T>, i: nat): seq<T>
    requires i < |s|
  {
    s[..i] + s[i + 1..]
  }

  function Truncate<T>(s: seq<T>, n: int): seq<T> {
    if n <= 0 then [] else if |s| <= n then s else s[..n]
  }

  lemma TruncateStep<T>(s: seq<T>, n: int)
    requires n <= |s|
    ensures Truncate(Truncate(s, n), |Truncate(s, n)| - 1) == Truncate(s, n - 1)
  {
  }

  ghost function Lookup<K, V>(c: Order<K, V>, k: K): V
    requires Has(c, k)
  {
    c[IndexOf(c, k)].1
  }

  ghost function Without<K, V>(c: Order<K, V>, k: K): Order<K, V> {
    if Has(c, k) then Cut(c, IndexOf(c, k)) else c
  }

  /** Reading a cached key makes it the most recent one. */
  ghost function Touch<K, V>(c: Order<K, V>, k: K): Order<K, V> {
    if Has(c, k) then [c[IndexOf(c, k)]] + Without(c, k) else c
  }

  ghost function Added<K, V>(c: Order<K, V>, size: int, k: K, v: V): Order<K, V> {
    Truncate([(k, v)] + Without(c, k), size)
  }

  lemma IndexIsUnique<K, V>(c: Order<K, V>, i: nat)
    requires DistinctKeys(c) && i < |c|
    ensures Has(c, c[i].0) && IndexOf(c, c[i].0) == i
  {
  }

  lemma AddedExisting<K, V>(c: Order<K, V>, size: int, k: K, v: V)
    requires Has(c, k) && |c| <= size
    ensures Added(c, size, k, v) == ([c[IndexOf(c, k)]] + Cut(c, IndexOf(c, k)))[0 := (k, v)]
  {
  }

  /** Add keeps the keys distinct and within the size, puts the key first, forgets nothing but the
      least recent entry, and forgets that one exactly when a new key meets a full cache. */
  lemma AddedIsBoundedRecency<K, V>(c: Order<K, V>, size: nat, k: K, v: V)
    requires DistinctKeys(c) && 0 < size && |c| <= size
    ensures var c' := Added(c, size, k, v);
      && DistinctKeys(c') && 0 < |c'| <= size && c'[0] == (k, v)
      && (Has(c, k) || |c| < size ==> c'[1..] == Without(c, k))
      && (!Has(c, k) && |c| == size ==> c'[1..] == c[..size - 1])
  {
    var w := Without(c, k);
    assert DistinctKeys(w) && forall q :: 0 <= q < |w| ==> w[q].0 != k;
    assert DistinctKeys([(k, v)] + w);
  }

  /** Reading a key reorders the entries and loses none of them. */
  lemma TouchKeepsEntries<K, V>(c: Order<K, V>, k: K)
    requires DistinctKeys(c)
    ensures DistinctKeys(Touch(c, k)) && |Touch(c, k)| == |c|
    ensures forall e :: e in c <==> e in Touch(c, k)
  {
    if Has(c, k) {
      var i := IndexOf(c, k);
      var w := Cut(c, i);
      assert forall j :: 0 <= j < |c| && j != i ==> c[j] == w[if j < i then j else j - 1];
      assert DistinctKeys(w) && forall q :: 0 <= q < |w| ==> w[q].0 != k;
      assert Touch(c, k) == [c[i]] + w;
    }
  }

  lemma LookupByEntry<K, V>(c: Order<K, V>, k: K, v: V)
    requires DistinctKeys(c)
    ensures (k, v) in c <==> Has(c, k) && Lookup(c, k) == v
  {
    if (k, v) in c {
      var i :| 0 <= i < |c| && c[i] == (k, v);
      IndexIsUnique(c, i);
    }
  }
}

/** LICENSES/github.com/hashicorp/golang-lru/v2: the ring with its sentinel (internal/list.go) and the
    map over it (simplelru/lru.go). */
module Lru {
  import opened Options
  import opened Recency

  class Entry<K(==, 0), V(0)> {
    var next: Entry?<K, V>
    var prev: Entry?<K, V>
    var list: LruList?<K, V>
    const key: K
    var value: V

    constructor (key: K, value: V)
      ensures this.key == key && this.value == value
      ensures next == null && prev == null && list == null
    {
      this.key, this.value := key, value;
      next, prev, list := null, null, null;
    }

    constructor Sentinel()
      ensures next == null && prev == null && list == null
    {
      next, prev, list := null, null, null;
    }

    method PrevEntry() returns (p: Entry?<K, V>)
      requires list != null ==> list.Valid() && this in list.ring[1..]
      ensures list == null ==> p == null
      ensures list != null ==>
                exists i :: 1 <= i < |list.ring| && list.ring[i] == this
                            && p == if i == 1 then null else list.ring[i - 1]
    {
      if list != null {
        ghost var i :| 1 <= i < |list.ring| && list.ring[i] == this;
        assert forall j :: 1 <= j < |list.ring| ==> list.ring[j] != list.root by { DistinctIndices(list.ring); }
        p := if prev != list.root then prev else null;
        assert p == if i == 1 then null else list.ring[i - 1];
      } else {
        p := null;
      }
    }
  }

  /** No element twice. Recursive, so that only the proofs about pointer writes see the quantifier. */
  ghost predicate Distinct<T>(s: seq<T>) {
    s != [] ==> s[0] !in s[1..] && Distinct(s[1..])
  }

  lemma {:induction false} DistinctIndices<T>(s: seq<T>)
    ensures Distinct(s) <==> forall i, j :: 0 <= i < j < |s| ==> s[i] != s[j]
  {
    if s != [] {
      DistinctIndices(s[1..]);
      assert forall j :: 1 <= j < |s| ==> s[j] == s[1..][j - 1];
    }
  }

  ghost function Spliced<T>(s: seq<T>, k: nat, e: T): seq<T>
    requires k < |s|
  {
    s[..k + 1] + [e] + s[k + 1..]
  }

  /** Where a move puts s[k]: out of its place and just after s[a]. */
  ghost function Moved<T>(s: seq<T>, k: nat, a: nat): seq<T>
    requires k < |s| && a < |s|
  {
    if a == k then s else Spliced(Cut(s, k), if a < k then a else a - 1, s[k])
  }

  lemma CutMembers<T>(s: seq<T>, k: nat)
    requires k < |s| && Distinct(s)
    ensures forall x :: x in Cut(s, k) <==> x in s && x != s[k]
    ensures Distinct(Cut(s, k))
  {
    DistinctIndices(s);
    DistinctIndices(Cut(s, k));
    assert forall i :: 0 <= i < |s| && i != k ==> s[i] == Cut(s, k)[if i < k then i else i - 1];
  }

  lemma SplicedMembers<T>(s: seq<T>, k: nat, e: T)
    requires k < |s|
    ensures forall x :: x in Spliced(s, k, e) <==> x == e || x in s
  {
    assert Spliced(s, k, e)[k + 1] == e;
    assert forall i :: 0 <= i < |s| ==> s[i] == Spliced(s, k, e)[if i <= k then i else i + 1];
  }

  lemma SplicedDistinct<T>(s: seq<T>, k: nat, e: T)
    requires k < |s| && Distinct(s) && e !in s
    ensures Distinct(Spliced(s, k, e))
  {
    var t := Spliced(s, k, e);
    DistinctIndices(s);
    forall i, j | 0 <= i < j < |t| ensures t[i] != t[j] {
      assert i != k + 1 ==> t[i] == s[if i <= k then i else i - 1];
      assert j != k + 1 ==> t[j] == s[if j <= k then j else j - 1];
    }
    DistinctIndices(t);
  }

  lemma MovedMembers<T>(s: seq<T>, k: nat, a: nat)
    requires 1 <= k < |s| && a < |s| && Distinct(s)
    ensures Moved(s, k, a)[0] == s[0] && (forall x :: x in Moved(s, k, a) <==> x in s)
  {
    if a != k {
      CutMembers(s, k);
      SplicedMembers(Cut(s, k), if a < k then a else a - 1, s[k]);
    }
  }

  /** The ring: `ring[0]` is the sentinel and `ring[1..]` the entries from newest to oldest. */
  class LruList<K(==, 0), V(0)> {
    const root: Entry<K, V>
    var len: int
    ghost var ring: seq<Entry<K, V>>

    ghost predicate Valid()
      reads this, ring
    {
      && |ring| > 0 && ring[0] == root && len == |ring| - 1 && Linked(ring)
      && (forall x :: x in ring && x != root ==> x.list == this)
    }

    static ghost predicate Linked(r: seq<Entry<K, V>>)
      requires |r| > 0
      reads r
    {
      && Distinct(r)
      && (forall i {:trigger r[i].next} :: 0 <= i < |r| - 1 ==> r[i].next == r[i + 1])
      && (forall i {:trigger r[i].prev} :: 1 <= i < |r| ==> r[i].prev == r[i - 1])
      && r[|r| - 1].next == r[0] && r[0].prev == r[|r| - 1]
    }

    constructor ()
      ensures Valid() && ring == [root] && fresh(root)
    {
      var r := new Entry<K, V>.Sentinel();
      root, len, ring := r, 0, [r];
      new;
      root.next := root;
      root.prev := root;
    }

    method Back() returns (e: Entry?<K, V>)
      requires Valid()
      ensures e == if |ring| == 1 then null else ring[|ring| - 1]
    {
      if len == 0 {
        return null;
      }
      return root.prev;
    }

    static ghost function After(r: seq<Entry<K, V>>, k: nat): Entry<K, V>
      requires k < |r|
    {
      if k + 1 < |r| then r[k + 1] else r[0]
    }

    /** The ring is linked but for the links between r[lo] and what follows it, up to r[hi] or its start. */
    static ghost predicate LinkedBut(r: seq<Entry<K, V>>, lo: nat, hi: nat)
      requires lo < hi <= |r|
      reads r
    {
      && Distinct(r)
      && (forall i {:trigger r[i].next} :: 0 <= i < |r| - 1 && !(lo <= i < hi) ==> r[i].next == r[i + 1])
      && (forall i {:trigger r[i].prev} :: 1 <= i < |r| && !(lo < i <= hi) ==> r[i].prev == r[i - 1])
      && (hi < |r| ==> r[|r| - 1].next == r[0] && r[0].prev == r[|r| - 1])
    }

    /** The four links of a new entry after r[k]. */
    static lemma SplicedIn(r: seq<Entry<K, V>>, k: nat, e: Entry<K, V>)
      requires k < |r| && e !in r && LinkedBut(r, k, k + 1)
      requires r[k].next == e && e.prev == r[k] && e.next == After(r, k) && After(r, k).prev == e
      ensures Linked(Spliced(r, k, e))
    {
      SplicedDistinct(r, k, e);
      var s := Spliced(r, k, e);
      assert forall i :: 0 <= i <= k ==> s[i] == r[i];
      assert forall i :: k + 1 < i < |s| ==> s[i] == r[i - 1];
    }

    /** The two links that go past r[k]. */
    static lemma CutOut(r: seq<Entry<K, V>>, k: nat)
      requires 1 <= k < |r| && LinkedBut(r, k - 1, k + 1)
      requires r[k - 1].next == After(r, k) && After(r, k).prev == r[k - 1]
      ensures Linked(Cut(r, k))
    {
      CutMembers(r, k);
      var s := Cut(r, k);
      assert forall i :: 0 <= i < k ==> s[i] == r[i];
      assert forall i :: k <= i < |s| ==> s[i] == r[i + 1];
    }

    /** The pointer writes that put e just after at = r[k]. */
    static method Link(e: Entry<K, V>, at: Entry<K, V>, ghost r: seq<Entry<K, V>>, ghost k: nat)
      requires k < |r| && Linked(r) && r[k] == at && e !in r
      modifies r, e
      ensures Linked(Spliced(r, k, e))
      ensures forall x: Entry<K, V> :: x == e || x in r ==> x.value == old(x.value) && x.list == old(x.list)
    {
      DistinctIndices(r);
      assert at.next == After(r, k);
      e.prev := at;
      e.next := at.next;
      e.prev.next := e;
      e.next.prev := e;
      SplicedIn(r, k, e);
    }

    /** The pointer writes that take e = r[k] out of the ring. */
    static method Unlink(e: Entry<K, V>, ghost r: seq<Entry<K, V>>, ghost k: nat)
      requires 1 <= k < |r| && Linked(r) && r[k] == e
      modifies r
      ensures Linked(Cut(r, k))
      ensures forall x: Entry<K, V> :: x in r ==> x.value == old(x.value) && x.list == old(x.list)
    {
      DistinctIndices(r);
      assert e.prev == r[k - 1] && e.next == After(r, k);
      e.prev.next := e.next;
      e.next.prev := e.prev;
      CutOut(r, k);
    }

    /** Inserts e after `at`; the ghost index says where `at` is. */
    method Insert(e: Entry<K, V>, at: Entry<K, V>, ghost k: nat)
      requires Valid() && k < |ring| && ring[k] == at && e !in ring
      modifies this, ring, e
      ensures Valid() && ring == old(Spliced(ring, k, e))
      ensures forall x: Entry<K, V> :: x == e || x in old(ring) ==> x.value == old(x.value)
    {
      SplicedMembers(ring, k, e);
      Link(e, at, ring, k);
      e.list := this;
      len := len + 1;
      ring := Spliced(ring, k, e);
    }

    method Remove(e: Entry<K, V>, ghost k: nat) returns (v: V)
      requires Valid() && 1 <= k < |ring| && ring[k] == e
      modifies this, ring
      ensures Valid() && ring == old(Cut(ring, k))
      ensures v == e.value && e.list == null && e.next == null && e.prev == null
      ensures forall x: Entry<K, V> :: x in old(ring) ==> x.value == old(x.value)
    {
      CutMembers(ring, k);
      assert e !in Cut(ring, k);
      Unlink(e, ring, k);
      e.next := null;
      e.prev := null;
      e.list := null;
      len := len - 1;
      ring := Cut(ring, k);
      v := e.value;
    }

    /** The pointer writes that move e = r[k] to just after at = r[a]. */
    static method Relink(e: Entry<K, V>, at: Entry<K, V>, ghost r: seq<Entry<K, V>>, ghost k: nat, ghost a: nat)
      requires 1 <= k < |r| && Linked(r) && r[k] == e && a < |r| && r[a] == at && a != k
      modifies r
      ensures Linked(Moved(r, k, a))
      ensures forall x: Entry<K, V> :: x in r ==> x.value == old(x.value) && x.list == old(x.list)
    {
      CutMembers(r, k);
      Unlink(e, r, k);
      Link(e, at, Cut(r, k), if a < k then a else a - 1);
    }

    method Move(e: Entry<K, V>, at: Entry<K, V>, ghost k: nat, ghost a: nat)
      requires Valid() && 1 <= k < |ring| && ring[k] == e && a < |ring| && ring[a] == at
      modifies this`ring, ring
      ensures Valid() && ring == old(Moved(ring, k, a))
      ensures forall x :: x in ring <==> x in old(ring)
      ensures forall x: Entry<K, V> :: x in old(ring) ==> x.value == old(x.value)
    {
      assert e == at ==> a == k by { DistinctIndices(ring); }
      if e == at {
        return;
      }
      ghost var was := ring;
      MovedMembers(was, k, a);
      Relink(e, at, was, k, a);
      ring := Moved(was, k, a);
    }

    method PushFront(e: Entry<K, V>)
      requires Valid() && e !in ring
      modifies this, ring, e
      ensures Valid() && ring == old(Spliced(ring, 0, e))
      ensures forall x: Entry<K, V> :: x == e || x in old(ring) ==> x.value == old(x.value)
    {
      Insert(e, root, 0);
    }

    /** An entry of another list is left alone; the ghost index says where an entry of this one is. */
    method MoveToFront(e: Entry<K, V>, ghost k: nat)
      requires Valid() && (e.list == this ==> 1 <= k < |ring| && ring[k] == e)
      modifies this`ring, ring
      ensures Valid()
      ensures ring == old(if e.list == this then Moved(ring, k, 0) else ring)
      ensures forall x :: x in ring <==> x in old(ring)
      ensures forall x: Entry<K, V> :: x in old(ring) ==> x.value == old(x.value)
    {
      assert e.list == this && root.next == e ==> k == 1 by { DistinctIndices(ring); }
      assert e.list == this && k == 1 ==> Moved(ring, k, 0) == ring;
      if e.list != this || root.next == e {
        return;
      }
      Move(e, root, k, 0);
    }
  }

  /** The ring carries exactly the pairs of c, in order. */
  ghost predicate Aligned<K(0), V(0)>(ring: seq<Entry<K, V>>, c: Order<K, V>)
    reads ring
  {
    |ring| == |c| + 1 && forall i {:trigger c[i]} :: 0 <= i < |c| ==> c[i] == (ring[i + 1].key, ring[i + 1].value)
  }

  /** The map finds every entry of the ring under its key, and nothing else. */
  ghost predicate Indexed<K(0), V(0)>(items: map<K, Entry<K, V>>, ring: seq<Entry<K, V>>)
    requires |ring| > 0
  {
    && (forall e :: e in ring && e != ring[0] ==> e.key in items && items[e.key] == e)
    && (forall k :: k in items ==> items[k] in ring && items[k] != ring[0] && items[k].key == k)
  }

  lemma IndexedIsDistinct<K(0), V(0)>(items: map<K, Entry<K, V>>, ring: seq<Entry<K, V>>, c: Order<K, V>)
    requires Aligned(ring, c) && Indexed(items, ring) && Distinct(ring)
    ensures DistinctKeys(c)
    ensures forall k :: k in items <==> Has(c, k)
  {
    DistinctIndices(ring);
    forall i, j | 0 <= i < j < |c| ensures c[i].0 != c[j].0 {
      assert ring[i + 1] != ring[j + 1] && ring[i + 1] != ring[0] && ring[j + 1] != ring[0];
    }
    forall k ensures k in items <==> Has(c, k) {
      if k in items {
        var i :| 0 <= i < |ring| && ring[i] == items[k];
        assert c[i - 1].0 == k;
      }
      if Has(c, k) {
        var i :| 0 <= i < |c| && c[i].0 == k;
        assert ring[i + 1] in ring && ring[i + 1] != ring[0];
      }
    }
  }

  lemma AlignedFront<K(0), V(0)>(ring: seq<Entry<K, V>>, c: Order<K, V>, i: nat)
    requires Aligned(ring, c) && 1 <= i < |ring|
    ensures Aligned(Moved(ring, i, 0), [c[i - 1]] + Cut(c, i - 1))
    ensures Aligned(Cut(ring, i), Cut(c, i - 1))
    ensures Moved(ring, i, 0)[1] == ring[i]
  {
    var c', r' := [c[i - 1]] + Cut(c, i - 1), Moved(ring, i, 0);
    assert forall j :: 1 <= j < i ==> c'[j] == c[j - 1] && r'[j + 1] == ring[j];
    assert forall j :: i <= j < |c| ==> c'[j] == c[j] && r'[j + 1] == ring[j + 1];
  }

  lemma AlignedPush<K(0), V(0)>(ring: seq<Entry<K, V>>, c: Order<K, V>, e: Entry<K, V>)
    requires Aligned(ring, c)
    ensures Aligned(Spliced(ring, 0, e), [(e.key, e.value)] + c)
  {
    var c', r' := [(e.key, e.value)] + c, Spliced(ring, 0, e);
    assert forall j :: 1 <= j < |c'| ==> c'[j] == c[j - 1];
    assert forall j :: 1 <= j < |c'| ==> r'[j + 1] == ring[j];
  }

  class LruCache<K(==, 0), V(0)> {
    var size: int
    const evictList: LruList<K, V>
    var items: map<K, Entry<K, V>>
    /** What the structure stands for: the pairs along the ring, newest first. */
    ghost var contents: Order<K, V>

    ghost var Repr: set<object>

    ghost predicate Coherent()
      reads this, Repr
    {
      && this in Repr && evictList in Repr && (forall e :: e in evictList.ring ==> e in Repr)
      && evictList.Valid() && Aligned(evictList.ring, contents) && Indexed(items, evictList.ring)
    }

    ghost predicate Valid()
      reads this, Repr
    {
      Coherent() && (|contents| <= size || contents == [])
    }

    constructor (size: int)
      ensures Valid() && contents == [] && this.size == size && fresh(Repr)
    {
      this.size := size;
      evictList := new LruList<K, V>();
      items, contents := map[], [];
      new;
      Repr := {this, evictList, evictList.root};
    }

    lemma KeysAreDistinct()
      requires Coherent()
      ensures DistinctKeys(contents) && forall k :: k in items <==> Has(contents, k)
    {
      IndexedIsDistinct(items, evictList.ring, contents);
    }

    /** The ring position of a cached key. */
    lemma Locate(k: K) returns (i: nat)
      requires Coherent() && k in items
      ensures 1 <= i < |evictList.ring| && evictList.ring[i] == items[k]
      ensures Has(contents, k) && IndexOf(contents, k) == i - 1 && contents[i - 1] == (k, items[k].value)
    {
      KeysAreDistinct();
      i :| 0 <= i < |evictList.ring| && evictList.ring[i] == items[k];
      assert contents[i - 1].0 == k;
    }

    /** Makes the entry at ring[i] the most recent one. */
    method Promote(ent: Entry<K, V>, ghost i: nat)
      requires Coherent() && 1 <= i < |evictList.ring| && evictList.ring[i] == ent
      modifies Repr
      ensures Coherent() && |contents| > 0 && evictList.ring[1] == ent
      ensures contents == old([contents[i - 1]] + Cut(contents, i - 1))
      ensures Repr == old(Repr) && size == old(size)
    {
      ghost var was := evictList.ring;
      evictList.MoveToFront(ent, i);
      AlignedFront(was, contents, i);
      contents := [contents[i - 1]] + Cut(contents, i - 1);
    }

    method Get(key: K) returns (value: V, ok: bool)
      requires Valid()
      modifies Repr
      ensures Valid() && Repr == old(Repr) && size == old(size)
      ensures contents == Touch(old(contents), key)
      ensures ok == Has(old(contents), key) && (ok ==> value == Lookup(old(contents), key))
    {
      KeysAreDistinct();
      ok := key in items;
      if ok {
        ghost var i := Locate(key);
        value := items[key].value;
        Promote(items[key], i);
      } else {
        value := *;
      }
    }

    /** An existing key takes the new value and becomes the most recent; a new one may push the oldest out. */
    method Add(key: K, value: V) returns (evicted: bool)
      requires Valid()
      modifies Repr
      ensures Valid() && size == old(size) && fresh(Repr - old(Repr))
      ensures contents == Added(old(contents), size, key, value)
      ensures evicted == (!Has(old(contents), key) && |old(contents)| + 1 > size)
    {
      KeysAreDistinct();
      if key in items {
        Replace(key, value);
        return false;
      }
      PushNew(key, value);
      evicted := evictList.len > size;
      if evicted {
        RemoveOldest();
      }
    }

    method Replace(key: K, value: V)
      requires Valid() && key in items
      modifies Repr
      ensures Valid() && Repr == old(Repr) && size == old(size)
      ensures contents == Added(old(contents), size, key, value)
    {
      ghost var i := Locate(key);
      AddedExisting(contents, size, key, value);
      hide Added, Without, Truncate, Cut;
      Promote(items[key], i);
      WriteThrough(key, value);
    }

    /** The effect of a write through the pointer that Get just returned. */
    method WriteThrough(key: K, value: V)
      requires Valid() && |contents| > 0 && contents[0].0 == key
      modifies Repr
      ensures Valid() && Repr == old(Repr) && size == old(size)
      ensures contents == old(contents)[0 := (key, value)]
    {
      assert forall j :: 2 <= j < |evictList.ring| ==> evictList.ring[j] != evictList.ring[1] by {
        DistinctIndices(evictList.ring);
      }
      assert items[key] == evictList.ring[1];
      items[key].value := value;
      contents := contents[0 := (key, value)];
    }

    method PushNew(key: K, value: V)
      requires Coherent() && key !in items
      modifies Repr
      ensures Coherent() && size == old(size) && fresh(Repr - old(Repr))
      ensures contents == [(key, value)] + old(contents)
    {
      var ent := new Entry<K, V>(key, value);
      ghost var was := evictList.ring;
      SplicedMembers(was, 0, ent);
      evictList.PushFront(ent);
      AlignedPush(was, contents, ent);
      items := items[key := ent];
      Repr := Repr + {ent};
      contents := [(key, value)] + contents;
    }

    method RemoveElement(e: Entry<K, V>, ghost i: nat)
      requires Coherent() && 1 <= i < |evictList.ring| && evictList.ring[i] == e
      modifies Repr
      ensures Coherent() && size == old(size) && Repr == old(Repr)
      ensures contents == old(Cut(contents, i - 1))
    {
      ghost var was := evictList.ring;
      var _ := evictList.Remove(e, i);
      AlignedFront(was, contents, i);
      CutMembers(was, i);
      items := items - {e.key};
      contents := Cut(contents, i - 1);
    }

    /** Drops the least recent entry, if there is one. */
    method RemoveOldest()
      requires Coherent()
      modifies Repr
      ensures Coherent() && size == old(size) && Repr == old(Repr)
      ensures contents == old(Truncate(contents, |contents| - 1))
    {
      var ent := evictList.Back();
      if ent != null {
        RemoveElement(ent, |evictList.ring| - 1);
      }
    }

    method Remove(key: K) returns (present: bool)
      requires Valid()
      modifies Repr
      ensures Valid() && size == old(size) && Repr == old(Repr)
      ensures present == Has(old(contents), key) && contents == Without(old(contents), key)
    {
      KeysAreDistinct();
      present := key in items;
      if present {
        ghost var i := Locate(key);
        RemoveElement(items[key], i);
      }
    }

    /** From oldest to newest. */
    method Keys() returns (keys: seq<K>)
      requires Valid()
      ensures |keys| == |contents|
      ensures forall j :: 0 <= j < |keys| ==> keys[j] == contents[|keys| - 1 - j].0
    {
      DistinctIndices(evictList.ring);
      keys := [];
      var ent := evictList.Back();
      while ent != null
        invariant |keys| <= |contents|
        invariant ent == if |keys| == |contents| then null else evictList.ring[|contents| - |keys|]
        invariant forall j :: 0 <= j < |keys| ==> keys[j] == contents[|contents| - 1 - j].0
        decreases |contents| - |keys|
      {
        keys := keys + [ent.key];
        ent := ent.PrevEntry();
      }
    }

    method Resize(size: int) returns (evicted: nat)
      requires Valid()
      modifies Repr
      ensures Valid() && this.size == size && Repr == old(Repr)
      ensures contents == Truncate(old(contents), size)
      ensures evicted == if size >= |old(contents)| then 0 else |old(contents)| - size
    {
      hide Indexed, LruList.Linked;
      var diff := evictList.len - size;
      if diff < 0 {
        diff := 0;
      }
      RemoveOldestTimes(diff);
      this.size := size;
      evicted := diff;
    }

    method RemoveOldestTimes(times: nat)
      requires Coherent()
      modifies Repr
      ensures Coherent() && Repr == old(Repr)
      ensures contents == Truncate(old(contents), |old(contents)| - times)
    {
      ghost var c := contents;
      for i := 0 to times
        invariant Coherent() && Repr == old(Repr)
        invariant contents == Truncate(c, |c| - i)
      {
        TruncateStep(c, |c| - i);
        RemoveOldest();
      }
    }
  }
}
