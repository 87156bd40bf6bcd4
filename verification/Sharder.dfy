/** The order of strings, and sorting by it. */
module Ordering {
  predicate Leq(a: string, b: string) {
    a == [] || (b != [] && (a[0] < b[0] || (a[0] == b[0] && Leq(a[1..], b[1..]))))
  }

  lemma {:induction false} LeqTotal(a: string, b: string)
    ensures Leq(a, b) || Leq(b, a)
  {
    if a != [] && b != [] && a[0] == b[0] {
      LeqTotal(a[1..], b[1..]);
    }
  }

  lemma {:induction false} LeqAntisymmetric(a: string, b: string)
    requires Leq(a, b) && Leq(b, a)
    ensures a == b
  {
    if a != [] {
      LeqAntisymmetric(a[1..], b[1..]);
      assert a == [a[0]] + a[1..] && b == [b[0]] + b[1..];
    }
  }

  lemma {:induction false} LeqTransitive(a: string, b: string, c: string)
    requires Leq(a, b) && Leq(b, c)
    ensures Leq(a, c)
  {
    if a != [] && a[0] == b[0] && b[0] == c[0] {
      LeqTransitive(a[1..], b[1..], c[1..]);
    }
  }

  ghost predicate IsSorted(s: seq<string>) {
    forall i, j :: 0 <= i < j < |s| ==> Leq(s[i], s[j])
  }

  lemma FirstIsLeast(a: seq<string>, b: seq<string>)
    requires a != [] && IsSorted(a) && multiset(a) == multiset(b)
    ensures b != [] && Leq(a[0], b[0])
  {
    hide Leq;
    assert a[0] in multiset(b);
    assert b[0] in multiset(a);
    var i :| 0 <= i < |a| && a[i] == b[0];
    LeqTotal(a[0], a[0]);
  }

  lemma WithoutFirst(a: seq<string>)
    requires a != []
    ensures multiset(a[1..]) == multiset(a) - multiset{a[0]}
  {
    assert a == [a[0]] + a[1..];
  }

  /** Only one order of the same strings is sorted. */
  lemma {:induction false} SortedIsUnique(a: seq<string>, b: seq<string>)
    requires IsSorted(a) && IsSorted(b) && multiset(a) == multiset(b)
    ensures a == b
  {
    hide Leq;
    if a == [] {
      assert |multiset(b)| == 0;
    } else {
      FirstIsLeast(a, b);
      FirstIsLeast(b, a);
      LeqAntisymmetric(a[0], b[0]);
      WithoutFirst(a);
      WithoutFirst(b);
      SortedIsUnique(a[1..], b[1..]);
      assert a == [a[0]] + a[1..] && b == [b[0]] + b[1..];
    }
  }

  /** Stands for the sort of the library. */
  method Sort(s: seq<string>) returns (r: seq<string>)
    ensures multiset(r) == multiset(s) && IsSorted(r)
  {
    r := [];
    for i := 0 to |s|
      invariant multiset(r) == multiset(s[..i]) && IsSorted(r)
    {
      assert s[..i + 1] == s[..i] + [s[i]];
      r := Insert(r, s[i]);
    }
    assert s[..|s|] == s;
  }

  method Insert(r: seq<string>, x: string) returns (r': seq<string>)
    requires IsSorted(r)
    ensures multiset(r') == multiset(r) + multiset{x} && IsSorted(r')
  {
    var k := 0;
    while k < |r| && Leq(r[k], x)
      invariant k <= |r| && forall j :: 0 <= j < k ==> Leq(r[j], x)
    {
      k := k + 1;
    }
    if k < |r| {
      LeqTotal(r[k], x);
      forall j | k <= j < |r| ensures Leq(x, r[j]) {
        if j > k {
          LeqTransitive(x, r[k], r[j]);
        }
      }
    }
    r' := Inserted(r, k, x);
    InsertedBag(r, k, x);
    InsertedAt(r, k, x);
    hide Inserted, Leq;
  }

  function Inserted<A>(r: seq<A>, k: nat, x: A): seq<A>
    requires k <= |r|
  {
    r[..k] + [x] + r[k..]
  }

  lemma InsertedBag<A>(r: seq<A>, k: nat, x: A)
    requires k <= |r|
    ensures multiset(Inserted(r, k, x)) == multiset(r) + multiset{x}
  {
    assert r == r[..k] + r[k..];
  }

  lemma InsertedAt<A>(r: seq<A>, k: nat, x: A)
    requires k <= |r|
    ensures |Inserted(r, k, x)| == |r| + 1
    ensures forall i :: 0 <= i <= |r| ==> Inserted(r, k, x)[i] == if i < k then r[i] else if i == k then x else r[i - 1]
  {
  }
}

/** Which peer owns a trace, by the set of peers and the partitions of each: the highest weight wins, and among
    equal weights the partition with the least hash. */
module Ownership {
  import opened Ordering

  type Uint64 = n: int | 0 <= n < 0x1_0000_0000_0000_0000

  type Hash = (string, Uint64) -> Uint64

  const PEER_SEED: Uint64 := 6789531204236
  const PARTITION_COUNT := 50

  /** The seeds of the partitions, the same for every peer. */
  function Seed(hash: Hash, seed: Uint64, k: nat): Uint64 {
    if k == 0 then seed else hash("anything", Seed(hash, seed, k - 1))
  }

  function Partition(hash: Hash, peer: string, k: nat): Uint64 {
    hash(peer, Seed(hash, PEER_SEED, k))
  }

  function Weight(hash: Hash, tid: string, peer: string, k: nat): Uint64 {
    hash(tid, Partition(hash, peer, k))
  }

  /** Seeds, each hashed from the one before. */
  ghost predicate IsChain(hash: Hash, seeds: seq<Uint64>) {
    && (seeds != [] ==> seeds[0] == 6789531204236)
    && forall i :: 0 < i < |seeds| ==> seeds[i] == hash("anything", seeds[i - 1])
  }

  /** The partitions of a peer come from hashing its address with such a chain, and a weight from hashing the trace id
      with a partition. */
  lemma {:induction false} PartitionsFollowChain(hash: Hash, n: nat) returns (seeds: seq<Uint64>)
    ensures |seeds| == n && IsChain(hash, seeds)
    ensures forall peer, k :: 0 <= k < n ==> Partition(hash, peer, k) == hash(peer, seeds[k])
    ensures forall tid, peer, k :: 0 <= k < n ==> Weight(hash, tid, peer, k) == hash(tid, hash(peer, seeds[k]))
  {
    seeds := seq(n, k requires 0 <= k < n => Seed(hash, PEER_SEED, k));
  }

  /** Every peer has the same number of partitions, the least one that makes more than 50 in all. */
  lemma FewestPartitions(count: nat)
    requires count > 0
    ensures count * PartitionsPerPeer(count) > 50 && count * (PartitionsPerPeer(count) - 1) <= 50
  {
    MorePartitionsThanAsked(count);
  }

  function PartitionsPerPeer(count: nat): nat
    requires count > 0
  {
    PARTITION_COUNT / count + 1
  }

  lemma {:induction false} MorePartitionsThanAsked(count: nat)
    requires count > 0
    ensures count * PartitionsPerPeer(count) > PARTITION_COUNT
  {
    var q := PARTITION_COUNT / count;
    assert PARTITION_COUNT == q * count + PARTITION_COUNT % count;
    assert count * (q + 1) == q * count + count;
  }

  /** A higher weight, or the same and no higher partition hash. */
  predicate Beats(hash: Hash, tid: string, peer: string, k: nat, q: string, j: nat) {
    || Weight(hash, tid, q, j) < Weight(hash, tid, peer, k)
    || (Weight(hash, tid, q, j) == Weight(hash, tid, peer, k) && Partition(hash, peer, k) <= Partition(hash, q, j))
  }

  /** The k-th partition of the peer beats, or is, every partition of every peer. */
  ghost predicate Wins(hash: Hash, peers: set<string>, n: nat, tid: string, peer: string, k: nat) {
    && Weight(hash, tid, peer, k) > 0
    && forall q, j: nat :: q in peers && j < n ==> Beats(hash, tid, peer, k, q, j)
  }

  /** When every weight is 0 the least peer owns the trace. */
  ghost predicate NoneWeighs(hash: Hash, peers: set<string>, n: nat, tid: string) {
    forall q, j: nat :: q in peers && j < n ==> Weight(hash, tid, q, j) == 0
  }

  ghost predicate IsLeast(peers: set<string>, peer: string) {
    peer in peers && forall q :: q in peers ==> Leq(peer, q)
  }

  ghost predicate IsOwner(hash: Hash, peers: set<string>, n: nat, tid: string, owner: string) {
    && owner in peers
    && ((NoneWeighs(hash, peers, n, tid) && IsLeast(peers, owner))
        || exists k: nat :: k < n && Wins(hash, peers, n, tid, owner, k))
  }

  /** No partition of any peer weighs more than the heaviest of the owner, and of the others that weigh as much none has
      a smaller hash. */
  lemma OwnerIsHeaviest(hash: Hash, peers: set<string>, n: nat, tid: string, owner: string, seeds: seq<Uint64>)
    returns (k: nat)
    requires n > 0 && IsOwner(hash, peers, n, tid, owner) && |seeds| == n && IsChain(hash, seeds)
    ensures k < n
    ensures forall q, j :: q in peers && 0 <= j < n ==>
              var mine, other := hash(tid, hash(owner, seeds[k])), hash(tid, hash(q, seeds[j]));
              mine > other || (mine == other && (mine == 0 || hash(owner, seeds[k]) <= hash(q, seeds[j])))
  {
    var chain := PartitionsFollowChain(hash, n);
    OneChain(hash, seeds, chain);
    if NoneWeighs(hash, peers, n, tid) {
      k := 0;
      forall q, j | q in peers && 0 <= j < n ensures hash(tid, hash(q, seeds[j])) == 0 {
        assert Weight(hash, tid, q, j) == 0;
      }
    } else {
      k :| k < n && Wins(hash, peers, n, tid, owner, k);
      forall q, j | q in peers && 0 <= j < n
        ensures var mine, other := hash(tid, hash(owner, seeds[k])), hash(tid, hash(q, seeds[j]));
          mine > other || (mine == other && hash(owner, seeds[k]) <= hash(q, seeds[j]))
      {
        assert Beats(hash, tid, owner, k, q, j);
      }
    }
  }

  lemma {:induction false} OneChain(hash: Hash, a: seq<Uint64>, b: seq<Uint64>)
    requires |a| == |b| && IsChain(hash, a) && IsChain(hash, b)
    ensures a == b
  {
    for i := 0 to |a|
      invariant a[..i] == b[..i]
    {
      assert i > 0 ==> a[i - 1] == a[..i][i - 1] == b[..i][i - 1];
    }
  }

  /** No two peers share a partition hash. */
  ghost predicate Separate(hash: Hash, peers: set<string>, n: nat) {
    forall p, q, j: nat, k: nat ::
      p in peers && q in peers && j < n && k < n && Partition(hash, p, j) == Partition(hash, q, k) ==> p == q
  }

  /** The owner depends on nothing but the set of peers and the number of partitions of each. */
  lemma OwnerIsUnique(hash: Hash, peers: set<string>, n: nat, tid: string, a: string, b: string)
    requires Separate(hash, peers, n) && IsOwner(hash, peers, n, tid, a) && IsOwner(hash, peers, n, tid, b)
    ensures a == b
  {
    if NoneWeighs(hash, peers, n, tid) {
      LeqAntisymmetric(a, b);
    } else {
      var k: nat :| k < n && Wins(hash, peers, n, tid, a, k);
      var j: nat :| j < n && Wins(hash, peers, n, tid, b, j);
      assert Beats(hash, tid, a, k, b, j) && Beats(hash, tid, b, j, a, k);
      assert Partition(hash, a, k) == Partition(hash, b, j);
    }
  }

  /** An owner that is not the peer that leaves stays the owner: only the traces of that peer move. Read backwards,
      a peer that joins takes traces from others, and no trace moves between those. */
  lemma OnlyTheLeavingPeersTracesMove(hash: Hash, peers: set<string>, gone: string, n: nat, tid: string,
                                      before: string, after: string)
    requires Separate(hash, peers, n)
    requires IsOwner(hash, peers, n, tid, before) && IsOwner(hash, peers - {gone}, n, tid, after)
    ensures before != gone ==> after == before
  {
    if before != gone {
      StaysOwner(hash, peers, gone, n, tid, before);
      OwnerIsUnique(hash, peers - {gone}, n, tid, before, after);
    }
  }

  lemma StaysOwner(hash: Hash, peers: set<string>, gone: string, n: nat, tid: string, owner: string)
    requires IsOwner(hash, peers, n, tid, owner) && owner != gone
    ensures IsOwner(hash, peers - {gone}, n, tid, owner)
  {
    if k: nat :| k < n && Wins(hash, peers, n, tid, owner, k) {
      assert Wins(hash, peers - {gone}, n, tid, owner, k);
    }
  }

  /** The winning partition of one peer has the hash of a partition of another. */
  ghost predicate Shared(hash: Hash, peers: set<string>, n: nat, tid: string, a: string, j: nat, b: string, k: nat) {
    && a in peers && b in peers && a != b && j < n && k < n
    && Partition(hash, a, j) == Partition(hash, b, k) && Wins(hash, peers, n, tid, a, j)
  }

  /** Two peers that share a winning partition are both owners by the definition. */
  lemma SharedPartitionsAreAmbiguous(hash: Hash, peers: set<string>, n: nat, tid: string, a: string, j: nat,
                                     b: string, k: nat)
    requires Shared(hash, peers, n, tid, a, j, b, k)
    ensures !Separate(hash, peers, n) && IsOwner(hash, peers, n, tid, a) && IsOwner(hash, peers, n, tid, b)
  {
    forall q, i: nat | q in peers && i < n ensures Beats(hash, tid, b, k, q, i) {
      assert Beats(hash, tid, a, j, q, i);
    }
    assert Wins(hash, peers, n, tid, b, k);
  }

  /** A trace has two owners by the definition exactly when two peers share its winning partition: then the owner
      is the one that the sort of the partitions puts first. */
  lemma AmbiguousExactly(hash: Hash, peers: set<string>, n: nat, tid: string)
    ensures (exists a, b :: a != b && IsOwner(hash, peers, n, tid, a) && IsOwner(hash, peers, n, tid, b))
            <==> exists a, j: nat, b, k: nat :: Shared(hash, peers, n, tid, a, j, b, k)
  {
    if a, b :| a != b && IsOwner(hash, peers, n, tid, a) && IsOwner(hash, peers, n, tid, b) {
      OwnersShare(hash, peers, n, tid, a, b);
    }
    if a, j: nat, b, k: nat :| Shared(hash, peers, n, tid, a, j, b, k) {
      SharedPartitionsAreAmbiguous(hash, peers, n, tid, a, j, b, k);
    }
  }

  lemma OwnersShare(hash: Hash, peers: set<string>, n: nat, tid: string, a: string, b: string)
    requires a != b && IsOwner(hash, peers, n, tid, a) && IsOwner(hash, peers, n, tid, b)
    ensures exists j: nat, k: nat :: Shared(hash, peers, n, tid, a, j, b, k)
  {
    if NoneWeighs(hash, peers, n, tid) {
      if IsLeast(peers, a) && IsLeast(peers, b) {
        LeqAntisymmetric(a, b);
      }
    }
    var j: nat :| j < n && Wins(hash, peers, n, tid, a, j);
    var k: nat :| k < n && Wins(hash, peers, n, tid, b, k);
    assert Beats(hash, tid, a, j, b, k) && Beats(hash, tid, b, k, a, j);
    assert Shared(hash, peers, n, tid, a, j, b, k);
  }
}

/** sharder/deterministic.go. */
module Sharder {
  import opened Options
  import opened Ordering
  import opened Ownership

  datatype HashShard = HashShard(uhash: Uint64, shardIndex: nat)

  /** The partitions of one peer. */
  function HashesFor(hash: Hash, addr: string, index: nat, n: nat, seed: Uint64): seq<HashShard> {
    seq(n, k requires 0 <= k < n => HashShard(hash(addr, Seed(hash, seed, k)), index))
  }

  /** The partitions of the first m peers, before they are sorted. */
  function Partitions(hash: Hash, peers: seq<string>, m: nat, n: nat): seq<HashShard>
    requires m <= |peers|
  {
    if m == 0 then [] else Partitions(hash, peers, m - 1, n) + HashesFor(hash, peers[m - 1], m - 1, n, PEER_SEED)
  }

  lemma {:induction false} PartitionsAre(hash: Hash, peers: seq<string>, m: nat, n: nat)
    requires m <= |peers|
    ensures |Partitions(hash, peers, m, n)| == m * n
    ensures forall h :: h in Partitions(hash, peers, m, n) ==> h.shardIndex < m && IsPartition(hash, peers, n, h)
    ensures forall i, k: nat :: 0 <= i < m && k < n ==>
              HashShard(Partition(hash, peers[i], k), i) in Partitions(hash, peers, m, n)
  {
    if m > 0 {
      PartitionsAre(hash, peers, m - 1, n);
      assert m * n == (m - 1) * n + n;
      var last := HashesFor(hash, peers[m - 1], m - 1, n, PEER_SEED);
      forall h | h in last ensures h.shardIndex == m - 1 && IsPartition(hash, peers, n, h) {
        var k: nat :| k < n && last[k] == h;
        assert h.uhash == Partition(hash, peers[h.shardIndex], k);
      }
      forall i, k: nat | 0 <= i < m && k < n
        ensures HashShard(Partition(hash, peers[i], k), i) in Partitions(hash, peers, m, n)
      {
        if i == m - 1 {
          assert last[k] == HashShard(Partition(hash, peers[i], k), i);
        }
      }
    }
  }

  ghost predicate IsPartition(hash: Hash, peers: seq<string>, n: nat, h: HashShard) {
    h.shardIndex < |peers| && exists k: nat :: k < n && h.uhash == Partition(hash, peers[h.shardIndex], k)
  }

  lemma SameBag<A>(a: seq<A>, b: seq<A>)
    requires multiset(a) == multiset(b)
    ensures |a| == |b| && forall x :: x in a <==> x in b
  {
    assert |a| == |multiset(a)| && |b| == |multiset(b)|;
    assert forall x :: x in a <==> x in multiset(a);
    assert forall x :: x in b <==> x in multiset(b);
  }

  ghost predicate HashesSorted(hashes: seq<HashShard>) {
    forall i, j :: 0 <= i < j < |hashes| ==> hashes[i].uhash <= hashes[j].uhash
  }

  /** What the library promises of its sort: the order of equal hashes is left open. */
  ghost predicate IsSortOf(r: seq<HashShard>, hashes: seq<HashShard>) {
    multiset(r) == multiset(hashes) && HashesSorted(r)
  }

  /** The highest weight among the first m partitions, and the first of them that has it. */
  function Heaviest(hash: Hash, hashes: seq<HashShard>, tid: string, m: nat): (Uint64, nat)
    requires m <= |hashes|
  {
    if m == 0 then (0, 0)
    else
      var best, h := Heaviest(hash, hashes, tid, m - 1), hash(tid, hashes[m - 1].uhash);
      if h > best.0 then (h, hashes[m - 1].shardIndex) else best
  }

  class DeterministicSharder {
    const hash: Hash
    /** The sort of the library: some function of the slice that it is given. */
    const sortHashes: seq<HashShard> -> seq<HashShard>
    var peers: seq<string>
    var hashes: seq<HashShard>

    /** Either nothing was loaded, or the partitions are those of the peers. */
    ghost predicate Valid()
      reads this
    {
      && IsSorted(peers) && (forall s :: IsSortOf(sortHashes(s), s))
      && hashes == if peers == [] then []
                   else sortHashes(Partitions(hash, peers, |peers|, PartitionsPerPeer(|peers|)))
    }

    constructor (hash: Hash, sortHashes: seq<HashShard> -> seq<HashShard>)
      requires forall s :: IsSortOf(sortHashes(s), s)
      ensures Valid() && peers == [] && this.hash == hash && this.sortHashes == sortHashes
    {
      this.hash, this.sortHashes := hash, sortHashes;
      peers, hashes := [], [];
    }

    /** The owner of a trace, by the loaded peers and partitions. */
    ghost function Owner(traceID: string): string
      reads this
    {
      var ix := Heaviest(hash, hashes, traceID, |hashes|).1;
      if ix < |peers| then peers[ix] else ""
    }

    method GetHashesFor(addr: string, index: nat, n: nat, seed: Uint64) returns (r: seq<HashShard>)
      ensures r == HashesFor(hash, addr, index, n, seed)
    {
      r := [];
      var s := seed;
      for i := 0 to n
        invariant s == Seed(hash, seed, i) && r == HashesFor(hash, addr, index, i, seed)
      {
        r := r + [HashShard(hash(addr, s), index)];
        s := hash("anything", s);
      }
    }

    /** Loads a list of peers; None stands for a list that could not be had. An error leaves everything as
        it was, and so does a list of the same peers. */
    method LoadPeerList(peerList: Option<seq<string>>) returns (ok: bool)
      requires Valid()
      modifies this
      ensures Valid() && ok == (peerList.Some? && peerList.value != [])
      ensures ok ==> multiset(peers) == multiset(peerList.value)
      ensures !ok ==> peers == old(peers) && hashes == old(hashes)
    {
      if peerList.None? || |peerList.value| == 0 {
        return false;
      }
      var newPeers := Sort(peerList.value);
      assert |newPeers| == |multiset(newPeers)| == |peerList.value|;
      var partitionsPerPeer := PARTITION_COUNT / |peerList.value| + 1;
      var newHashes := Build(newPeers, partitionsPerPeer);
      newHashes := sortHashes(newHashes);
      if peers != newPeers {
        peers, hashes := newPeers, newHashes;
      }
      ok := true;
    }

    method Build(newPeers: seq<string>, n: nat) returns (r: seq<HashShard>)
      ensures r == Partitions(hash, newPeers, |newPeers|, n)
    {
      r := [];
      for ix := 0 to |newPeers|
        invariant r == Partitions(hash, newPeers, ix, n)
      {
        var more := GetHashesFor(newPeers[ix], ix, n, PEER_SEED);
        r := r + more;
      }
    }

    /** Partitions name peers, and there are always more than 50 of them. */
    lemma PartitionsInRange()
      requires Valid() && peers != []
      ensures |hashes| == |peers| * PartitionsPerPeer(|peers|) > PARTITION_COUNT && HashesSorted(hashes)
      ensures forall i :: 0 <= i < |hashes| ==> IsPartition(hash, peers, PartitionsPerPeer(|peers|), hashes[i])
      ensures forall i, k: nat :: 0 <= i < |peers| && k < PartitionsPerPeer(|peers|) ==>
                HashShard(Partition(hash, peers[i], k), i) in hashes
    {
      var n := PartitionsPerPeer(|peers|);
      var all := Partitions(hash, peers, |peers|, n);
      PartitionsAre(hash, peers, |peers|, n);
      MorePartitionsThanAsked(|peers|);
      assert IsSortOf(sortHashes(all), all);
      SameBag(hashes, all);
      hide Partitions;
      assert forall i :: 0 <= i < |hashes| ==> hashes[i] in hashes;
    }

    /** The owner of a trace. */
    method WhichShard(traceID: string) returns (shard: string)
      requires Valid() && peers != []
      ensures shard == Owner(traceID)
      ensures IsOwner(hash, Elements(peers), PartitionsPerPeer(|peers|), traceID, shard)
    {
      hide Valid, PartitionsPerPeer, Scanned, Owner, Leads;
      PartitionsInRange();
      var bestix: nat := 0;
      var maxHash: Uint64 := 0;
      ghost var best: nat := 0;
      ScannedNone(traceID);
      for i := 0 to |hashes|
        invariant Scanned(traceID, i, maxHash, bestix, best)
      {
        ScannedOne(traceID, i, maxHash, bestix, best);
        var h := hash(traceID, hashes[i].uhash);
        if h > maxHash {
          maxHash := h;
          bestix := hashes[i].shardIndex;
          best := i;
        }
      }
      ScannedAll(traceID, maxHash, bestix, best);
      shard := peers[bestix];
    }

    /** The scan after i partitions: best is where the highest weight was found. */
    ghost predicate Scanned(traceID: string, i: nat, maxHash: Uint64, bestix: nat, best: nat)
      reads this
    {
      && i <= |hashes| && bestix < |peers| && (maxHash, bestix) == Heaviest(hash, hashes, traceID, i)
      && (maxHash == 0 ==> bestix == 0 && forall j :: 0 <= j < i ==> hash(traceID, hashes[j].uhash) == 0)
      && (maxHash > 0 ==> best < i && Leads(traceID, best, i) && maxHash == hash(traceID, hashes[best].uhash)
                          && bestix == hashes[best].shardIndex)
    }

    lemma ScannedNone(traceID: string)
      requires peers != []
      ensures Scanned(traceID, 0, 0, 0, 0)
    {
    }

    lemma ScannedOne(traceID: string, i: nat, maxHash: Uint64, bestix: nat, best: nat)
      requires Scanned(traceID, i, maxHash, bestix, best) && i < |hashes| && hashes[i].shardIndex < |peers|
      ensures var h := hash(traceID, hashes[i].uhash);
        if h > maxHash then Scanned(traceID, i + 1, h, hashes[i].shardIndex, i)
        else Scanned(traceID, i + 1, maxHash, bestix, best)
    {
    }

    lemma ScannedAll(traceID: string, maxHash: Uint64, bestix: nat, best: nat)
      requires Valid() && peers != [] && Scanned(traceID, |hashes|, maxHash, bestix, best)
      ensures bestix < |peers| && peers[bestix] == Owner(traceID)
      ensures IsOwner(hash, Elements(peers), PartitionsPerPeer(|peers|), traceID, peers[bestix])
    {
      hide Valid, PartitionsPerPeer, IsOwner;
      if maxHash > 0 {
        LeaderWins(traceID, best);
      } else {
        NoneWins(traceID);
      }
    }

    /** Among the first i partitions, this one has the highest weight, and no earlier one has as high a weight. */
    ghost predicate Leads(traceID: string, best: nat, i: nat)
      requires best < i <= |hashes|
      reads this
    {
      && (forall j :: 0 <= j < i ==> hash(traceID, hashes[j].uhash) <= hash(traceID, hashes[best].uhash))
      && (forall j :: 0 <= j < best ==> hash(traceID, hashes[j].uhash) < hash(traceID, hashes[best].uhash))
    }

    lemma LeaderWins(traceID: string, best: nat)
      requires Valid() && peers != [] && best < |hashes| && Leads(traceID, best, |hashes|)
      requires hash(traceID, hashes[best].uhash) > 0 && hashes[best].shardIndex < |peers|
      ensures IsOwner(hash, Elements(peers), PartitionsPerPeer(|peers|), traceID, peers[hashes[best].shardIndex])
    {
      hide Valid, Partitions, PartitionsPerPeer;
      var n := PartitionsPerPeer(|peers|);
      PartitionsInRange();
      var owner := peers[hashes[best].shardIndex];
      var k: nat :| k < n && hashes[best].uhash == Partition(hash, owner, k);
      forall q, j: nat | q in Elements(peers) && j < n
        ensures Beats(hash, traceID, owner, k, q, j)
      {
        var ix :| 0 <= ix < |peers| && peers[ix] == q;
        var l :| 0 <= l < |hashes| && hashes[l] == HashShard(Partition(hash, q, j), ix);
        assert hash(traceID, hashes[l].uhash) <= hash(traceID, hashes[best].uhash);
      }
      assert Wins(hash, Elements(peers), n, traceID, owner, k);
    }

    lemma NoneWins(traceID: string)
      requires Valid() && peers != [] && forall j :: 0 <= j < |hashes| ==> hash(traceID, hashes[j].uhash) == 0
      ensures IsOwner(hash, Elements(peers), PartitionsPerPeer(|peers|), traceID, peers[0])
    {
      var n := PartitionsPerPeer(|peers|);
      PartitionsInRange();
      forall q, j: nat | q in Elements(peers) && j < n ensures Weight(hash, traceID, q, j) == 0 {
        var ix :| 0 <= ix < |peers| && peers[ix] == q;
        var l :| 0 <= l < |hashes| && hashes[l] == HashShard(Partition(hash, q, j), ix);
      }
      forall q | q in Elements(peers) ensures Leq(peers[0], q) {
        var ix :| 0 <= ix < |peers| && peers[ix] == q;
        LeqTotal(q, q);
      }
    }
  }

  /** Nodes whose peer lists are permutations of one another have the same partitions in the same order, and find
      the same owner of every trace. */
  lemma SamePeersSameOwner(a: DeterministicSharder, b: DeterministicSharder, traceID: string)
    requires a.Valid() && b.Valid() && a.hash == b.hash && a.sortHashes == b.sortHashes
    requires multiset(a.peers) == multiset(b.peers)
    ensures a.peers == b.peers && a.hashes == b.hashes && a.Owner(traceID) == b.Owner(traceID)
  {
    SortedIsUnique(a.peers, b.peers);
  }
}
