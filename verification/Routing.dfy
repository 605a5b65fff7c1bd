/** storage/rtable.go: Kademlia buckets, each a doubly linked list in least-recently-seen order
    with a map into it. */
module Routing {
  import opened XorMetric
  import opened Sorting

  datatype RoutingEntry = RoutingEntry(id: ID, address: string)

  class RoutingEntryNode {
    const entry: RoutingEntry
    var prev: RoutingEntryNode?
    var next: RoutingEntryNode?

    constructor (entry: RoutingEntry)
      ensures this.entry == entry && prev == null && next == null
    {
      this.entry := entry;
      prev, next := null, null;
    }
  }

  // ---- doubly linked lists ----

  ghost function At(ns: seq<RoutingEntryNode>, i: int): RoutingEntryNode? {
    if 0 <= i < |ns| then ns[i] else null
  }

  ghost predicate LinkAt(ns: seq<RoutingEntryNode>, i: nat)
    requires i < |ns|
    reads ns
  {
    ns[i].next == At(ns, i + 1) && ns[i].prev == At(ns, i - 1)
  }

  /** Following next from the first node, or prev from the last, visits exactly ns. */
  ghost predicate Linked(ns: seq<RoutingEntryNode>)
    reads ns
  {
    forall i :: 0 <= i < |ns| ==> LinkAt(ns, i)
  }

  ghost predicate DistinctNodes(ns: seq<RoutingEntryNode>) {
    forall i, j :: 0 <= i < j < |ns| ==> ns[i] != ns[j]
  }

  ghost function Removed<T>(s: seq<T>, k: nat): seq<T>
    requires k < |s|
  {
    s[..k] + s[k + 1..]
  }

  /** Bypasses node k of the list. */
  method Unlink(n: RoutingEntryNode, ghost ns: seq<RoutingEntryNode>, ghost k: nat)
    requires Linked(ns) && DistinctNodes(ns) && k < |ns| && ns[k] == n
    modifies ns
    ensures Linked(Removed(ns, k))
    ensures n.next == At(ns, k + 1) && n.prev == At(ns, k - 1)
  {
    assert LinkAt(ns, k);
    if n.prev != null {
      n.prev.next := n.next;
    }
    if n.next != null {
      n.next.prev := n.prev;
    }
    ghost var r := Removed(ns, k);
    forall i | 0 <= i < |r| ensures LinkAt(r, i) {
      var j := if i < k then i else i + 1;
      assert r[i] == ns[j] && old(LinkAt(ns, j));
    }
  }

  /** Adds a node after the last one. */
  method LinkLast(n: RoutingEntryNode, tail: RoutingEntryNode?, ghost ns: seq<RoutingEntryNode>)
    requires Linked(ns) && DistinctNodes(ns) && n !in ns && tail == At(ns, |ns| - 1)
    modifies ns, n
    ensures Linked(ns + [n])
  {
    if tail != null {
      tail.next := n;
    }
    n.prev := tail;
    n.next := null;
    ghost var r := ns + [n];
    forall i | 0 <= i < |r| ensures LinkAt(r, i) {
      if i < |ns| {
        assert old(LinkAt(ns, i));
      }
    }
  }

  // ---- buckets ----

  function Entries(ns: seq<RoutingEntryNode>): (c: seq<RoutingEntry>)
    ensures |c| == |ns|
  {
    seq(|ns|, i requires 0 <= i < |ns| => ns[i].entry)
  }

  ghost predicate DistinctIds(c: seq<RoutingEntry>) {
    forall i, j :: 0 <= i < j < |c| ==> c[i].id != c[j].id
  }

  ghost predicate Knows(c: seq<RoutingEntry>, id: ID) {
    exists i :: 0 <= i < |c| && c[i].id == id
  }

  /** The map finds each node under its identifier, and nothing else. */
  ghost predicate Indexed(m: map<ID, RoutingEntryNode>, ns: seq<RoutingEntryNode>) {
    && DistinctIds(Entries(ns))
    && (forall n :: n in ns ==> n.entry.id in m && m[n.entry.id] == n)
    && (forall id :: id in m ==> m[id] in ns && m[id].entry.id == id)
  }

  /** The effect of Update on a bucket of capacity k, its entries in order from the head: a known
      identifier moves to the tail, a new one is appended if there is room or in place of a head
      that does not answer, and is refused otherwise. */
  ghost predicate IsRefreshed(c: seq<RoutingEntry>, re: RoutingEntry, k: nat, alive: bool, r: seq<RoutingEntry>) {
    && (Knows(c, re.id) ==> exists i :: 0 <= i < |c| && c[i].id == re.id && r == Removed(c, i) + [c[i]])
    && (!Knows(c, re.id) && |c| < k ==> r == c + [re])
    && (!Knows(c, re.id) && |c| >= k && !alive ==> c != [] && r == c[1..] + [re])
    && (!Knows(c, re.id) && |c| >= k && alive ==> r == c)
  }

  class Bucket {
    var EntryMap: map<ID, RoutingEntryNode>
    var Head: RoutingEntryNode?
    var Tail: RoutingEntryNode?
    ghost var Nodes: seq<RoutingEntryNode>

    /** The list from either end and the map all describe the same nodes. */
    ghost predicate Valid()
      reads this, Nodes
    {
      && Linked(Nodes)
      && Head == At(Nodes, 0)
      && (Nodes != [] ==> Tail == At(Nodes, |Nodes| - 1))
      && Indexed(EntryMap, Nodes)
    }

    ghost function Contents(): seq<RoutingEntry>
      reads this
    {
      Entries(Nodes)
    }

    constructor ()
      ensures Valid() && Contents() == [] && Nodes == []
    {
      EntryMap, Head, Tail := map[], null, null;
      Nodes := [];
    }

    /** The entry is known: it moves to the tail. */
    method MoveToTail(entry: RoutingEntryNode, ghost k: nat)
      requires Valid() && k < |Nodes| && Nodes[k] == entry
      modifies this, Nodes
      ensures Valid() && Nodes == Removed(old(Nodes), k) + [entry]
      ensures EntryMap == old(EntryMap)
    {
      hide Indexed, Linked;
      ghost var ns := Nodes;
      DistinctObjects(EntryMap, ns);
      MovedNodes(EntryMap, ns, k);
      LinksOf(ns, k);
      if Tail != entry {
        if entry.prev == null {
          Head := entry.next;
        }
        Unlink(entry, ns, k);
        LinkLast(entry, Tail, Removed(ns, k));
        Tail := entry;
        Nodes := Removed(ns, k) + [entry];
      }
    }

    method Append(re: RoutingEntry)
      requires Valid() && re.id !in EntryMap
      modifies this, Nodes
      ensures Valid() && |Nodes| == old(|Nodes|) + 1 && Nodes[..old(|Nodes|)] == old(Nodes)
      ensures fresh(Nodes[old(|Nodes|)]) && Nodes[old(|Nodes|)].entry == re
    {
      hide Indexed, Linked;
      ghost var ns := Nodes;
      DistinctObjects(EntryMap, ns);
      var reNode := new RoutingEntryNode(re);
      AppendedNodes(EntryMap, ns, reNode);
      LinkLast(reNode, if Head == null then null else Tail, ns);
      if Head == null {
        Head := reNode;
      }
      Tail := reNode;
      EntryMap := EntryMap[re.id := reNode];
      Nodes := ns + [reNode];
    }

    method EvictHead()
      requires Valid() && Nodes != []
      modifies this, Nodes
      ensures Valid() && Nodes == old(Nodes)[1..]
      ensures EntryMap == old(EntryMap) - {old(Nodes)[0].entry.id}
    {
      hide Indexed, Linked;
      ghost var ns := Nodes;
      DistinctObjects(EntryMap, ns);
      LinksOf(ns, 0);
      EvictedNodes(EntryMap, ns);
      EntryMap := EntryMap - {Head.entry.id};
      Unlink(Head, ns, 0);
      Head := Head.next;
      Nodes := ns[1..];
    }

    /** The list as met from the head. */
    method Walk() returns (list: seq<RoutingEntry>)
      requires Valid()
      ensures list == Contents()
    {
      list := [];
      var x := Head;
      ghost var i := 0;
      while x != null
        invariant 0 <= i <= |Nodes| && x == At(Nodes, i) && list == Entries(Nodes[..i])
        decreases |Nodes| - i
      {
        LinksOf(Nodes, i);
        list := list + [x.entry];
        x := x.next;
        i := i + 1;
      }
      assert Nodes[..i] == Nodes;
    }

    /** Update, once the bucket is chosen; alive is the answer to the ping of its head. */
    method Refresh(re: RoutingEntry, replicationParam: nat, alive: bool)
      requires Valid() && replicationParam >= 1
      modifies this, Nodes
      ensures Valid() && IsRefreshed(old(Contents()), re, replicationParam, alive, Contents())
      ensures forall n :: n in Nodes ==> n in old(Nodes) || fresh(n)
    {
      hide Indexed, Linked;
      ghost var ns, c := Nodes, Contents();
      KnownIffIndexed(EntryMap, ns, re.id);
      IndexSize(EntryMap, ns);
      if re.id in EntryMap {
        var entry := EntryMap[re.id];
        ghost var k := FindNode(EntryMap, ns, re.id);
        MoveToTail(entry, k);
        MovedContents(ns, k);
      } else if |EntryMap| < replicationParam {
        Append(re);
        AppendedContents(ns, Nodes, re);
      } else if !alive {
        EvictHead();
        AbsentAfter(EntryMap, ns, re.id);
        Append(re);
        AppendedContents(ns[1..], Nodes, re);
      }
    }
  }

  /** A bucket nothing of which is written stays valid. */
  twostate lemma Untouched(b: Bucket)
    requires old(b.Valid()) && unchanged(b) && forall n: RoutingEntryNode :: n in b.Nodes ==> unchanged(n)
    ensures b.Valid()
  {
    forall i | 0 <= i < |b.Nodes| ensures LinkAt(b.Nodes, i) {
      assert old(LinkAt(b.Nodes, i));
      assert b.Nodes[i] in b.Nodes;
    }
  }

  lemma {:induction false} IndexSize(m: map<ID, RoutingEntryNode>, ns: seq<RoutingEntryNode>)
    requires Indexed(m, ns)
    ensures |m| == |ns|
    decreases |ns|
  {
    if ns == [] {
      assert m.Keys == {};
    } else {
      var id := ns[0].entry.id;
      EvictedNodes(m, ns);
      IndexSize(m - {id}, ns[1..]);
      assert ns[0] in ns;
      assert m.Keys == (m - {id}).Keys + {id};
    }
  }

  lemma LinksOf(ns: seq<RoutingEntryNode>, k: nat)
    requires Linked(ns) && k < |ns|
    ensures ns[k].next == At(ns, k + 1) && ns[k].prev == At(ns, k - 1)
  {
    assert LinkAt(ns, k);
  }

  lemma DistinctObjects(m: map<ID, RoutingEntryNode>, ns: seq<RoutingEntryNode>)
    requires Indexed(m, ns)
    ensures DistinctNodes(ns)
  {
    forall i, j | 0 <= i < j < |ns| ensures ns[i] != ns[j] {
      assert Entries(ns)[i].id != Entries(ns)[j].id;
    }
  }

  lemma InRemoved<T>(s: seq<T>, k: nat, x: T)
    requires k < |s|
    ensures x in s <==> x in Removed(s, k) || x == s[k]
  {
    var r := Removed(s, k);
    if x in s {
      var i :| 0 <= i < |s| && s[i] == x;
      assert i < k ==> r[i] == x;
      assert i > k ==> r[i - 1] == x;
    }
  }

  lemma RemovedIds(ns: seq<RoutingEntryNode>, k: nat)
    requires k < |ns| && DistinctIds(Entries(ns))
    ensures DistinctIds(Entries(Removed(ns, k))) && DistinctNodes(Removed(ns, k))
    ensures forall n :: n in Removed(ns, k) ==> n.entry.id != ns[k].entry.id
  {
    var c, r := Entries(ns), Removed(ns, k);
    forall i | 0 <= i < |r| ensures r[i].entry.id != ns[k].entry.id {
      var i' := if i < k then i else i + 1;
      assert r[i] == ns[i'] && c[i'].id != c[k].id;
    }
    forall i, j | 0 <= i < j < |r| ensures Entries(r)[i].id != Entries(r)[j].id && r[i] != r[j] {
      var i', j' := if i < k then i else i + 1, if j < k then j else j + 1;
      assert c[i'].id != c[j'].id;
    }
  }

  lemma AppendedIds(ns: seq<RoutingEntryNode>, n: RoutingEntryNode)
    requires DistinctIds(Entries(ns)) && forall x :: x in ns ==> x.entry.id != n.entry.id
    ensures DistinctIds(Entries(ns + [n]))
  {
    var r := Entries(ns + [n]);
    forall i, j | 0 <= i < j < |r| ensures r[i].id != r[j].id {
      if j < |ns| {
        assert Entries(ns)[i].id != Entries(ns)[j].id;
      } else {
        assert ns[i] in ns;
      }
    }
  }

  lemma AppendedNodes(m: map<ID, RoutingEntryNode>, ns: seq<RoutingEntryNode>, n: RoutingEntryNode)
    requires Indexed(m, ns) && n.entry.id !in m
    ensures Indexed(m[n.entry.id := n], ns + [n]) && n !in ns
  {
    hide Entries;
    AppendedIds(ns, n);
  }

  lemma RemovedNodes(m: map<ID, RoutingEntryNode>, ns: seq<RoutingEntryNode>, k: nat)
    requires Indexed(m, ns) && k < |ns|
    ensures Indexed(m - {ns[k].entry.id}, Removed(ns, k))
    ensures DistinctNodes(Removed(ns, k)) && ns[k] !in Removed(ns, k)
  {
    hide Entries;
    RemovedIds(ns, k);
    forall n ensures n in ns <==> n in Removed(ns, k) || n == ns[k] { InRemoved(ns, k, n); }
    StillIndexed(m, ns, Removed(ns, k), ns[k]);
  }

  lemma StillIndexed(m: map<ID, RoutingEntryNode>, ns: seq<RoutingEntryNode>, r: seq<RoutingEntryNode>,
                     x: RoutingEntryNode)
    requires Indexed(m, ns) && DistinctIds(Entries(r)) && x in ns
    requires forall n :: n in ns <==> n in r || n == x
    requires forall n :: n in r ==> n.entry.id != x.entry.id
    ensures Indexed(m - {x.entry.id}, r) && x !in r
  {
    hide Entries;
  }

  lemma MovedNodes(m: map<ID, RoutingEntryNode>, ns: seq<RoutingEntryNode>, k: nat)
    requires Indexed(m, ns) && k < |ns|
    ensures Indexed(m, Removed(ns, k) + [ns[k]]) && ns[k] !in Removed(ns, k) && DistinctNodes(Removed(ns, k))
    ensures k + 1 == |ns| ==> Removed(ns, k) + [ns[k]] == ns
  {
    hide Entries;
    var id := ns[k].entry.id;
    RemovedNodes(m, ns, k);
    AppendedNodes(m - {id}, Removed(ns, k), ns[k]);
    assert ns[k] in ns;
    assert (m - {id})[id := ns[k]] == m;
  }

  lemma EvictedNodes(m: map<ID, RoutingEntryNode>, ns: seq<RoutingEntryNode>)
    requires Indexed(m, ns) && ns != []
    ensures Indexed(m - {ns[0].entry.id}, ns[1..]) && Removed(ns, 0) == ns[1..]
  {
    assert Removed(ns, 0) == ns[1..];
    RemovedNodes(m, ns, 0);
  }

  /** The entry with this identifier, found through the map. */
  lemma FindNode(m: map<ID, RoutingEntryNode>, ns: seq<RoutingEntryNode>, id: ID) returns (k: nat)
    requires Indexed(m, ns) && id in m
    ensures k < |ns| && ns[k] == m[id] && Entries(ns)[k].id == id
  {
    k :| 0 <= k < |ns| && ns[k] == m[id];
  }

  lemma KnownIffIndexed(m: map<ID, RoutingEntryNode>, ns: seq<RoutingEntryNode>, id: ID)
    requires Indexed(m, ns)
    ensures id in m <==> Knows(Entries(ns), id)
  {
    if id in m {
      var k := FindNode(m, ns, id);
    }
  }

  lemma MovedContents(ns: seq<RoutingEntryNode>, k: nat)
    requires k < |ns|
    ensures Entries(Removed(ns, k) + [ns[k]]) == Removed(Entries(ns), k) + [Entries(ns)[k]]
  {
  }

  lemma AppendedContents(ns: seq<RoutingEntryNode>, r: seq<RoutingEntryNode>, re: RoutingEntry)
    requires |r| == |ns| + 1 && r[..|ns|] == ns && r[|ns|].entry == re
    ensures Entries(r) == Entries(ns) + [re]
    ensures forall n :: n in r ==> n in ns || n == r[|ns|]
  {
    forall i | 0 <= i < |ns| ensures Entries(r)[i] == Entries(ns)[i] {
      assert r[..|ns|][i] == ns[i];
    }
    forall n | n in r ensures n in ns || n == r[|ns|] {
      var i :| 0 <= i < |r| && r[i] == n;
      if i < |ns| { assert r[..|ns|][i] == ns[i]; }
    }
  }

  lemma AbsentAfter(m: map<ID, RoutingEntryNode>, ns: seq<RoutingEntryNode>, id: ID)
    requires ns != [] && Indexed(m, ns[1..]) && !Knows(Entries(ns), id)
    ensures id !in m && Entries(ns[1..]) == Entries(ns)[1..]
  {
    KnownIffIndexed(m, ns[1..], id);
    assert Entries(ns[1..]) == Entries(ns)[1..];
  }

  // ---- the whole table ----

  lemma PrefixLenUnique(a: Octets, b: Octets, m: nat, n: nat)
    requires |a| == |b| && IsPrefixLen(a, b, m) && IsPrefixLen(a, b, n)
    ensures m == n
  {
  }

  /** No bucket for this prefix length: the table is indexed out of range. */
  ghost predicate OutOfRange(own: ID, id: ID) {
    exists n :: 0 <= n < 8 * DSTORE_ID_SIZE && IsPrefixLen(own, id, n) && n >= DSTORE_ID_SIZE
  }

  ghost predicate Apart(ns: seq<RoutingEntryNode>, ms: seq<RoutingEntryNode>) {
    forall n :: n in ns ==> n !in ms
  }

  class RoutingTable {
    const own: ID
    const replicationParam: nat
    const PrefixMatchBuckets: seq<Bucket>
    ghost var Repr: set<object>

    /** Bucket i holds at most replicationParam identifiers, each sharing exactly i leading bits with
        our own. */
    ghost predicate Valid()
      reads this, Repr
    {
      && replicationParam >= 1 && |PrefixMatchBuckets| == DSTORE_ID_SIZE && this in Repr
      && (forall i, j :: 0 <= i < j < DSTORE_ID_SIZE ==> PrefixMatchBuckets[i] != PrefixMatchBuckets[j])
      && (forall i :: 0 <= i < DSTORE_ID_SIZE ==>
            var b := PrefixMatchBuckets[i];
            && b in Repr && (forall n :: n in b.Nodes ==> n in Repr)
            && b.Valid() && BucketFits(b.Contents(), i))
    }

    ghost predicate BucketFits(c: seq<RoutingEntry>, i: nat) {
      |c| <= replicationParam && forall e :: e in c ==> IsPrefixLen(own, e.id, i)
    }

    ghost function ContentsOf(i: nat): seq<RoutingEntry>
      requires i < |PrefixMatchBuckets|
      reads this, PrefixMatchBuckets[i]
    {
      PrefixMatchBuckets[i].Contents()
    }

    constructor (own: ID, replicationParam: nat)
      requires replicationParam >= 1
      ensures Valid() && fresh(Repr) && this.own == own && this.replicationParam == replicationParam
      ensures forall i :: 0 <= i < DSTORE_ID_SIZE ==> ContentsOf(i) == []
    {
      this.own := own;
      this.replicationParam := replicationParam;
      var buckets: seq<Bucket> := [];
      for i := 0 to DSTORE_ID_SIZE
        invariant |buckets| == i
        invariant forall j :: 0 <= j < i ==> buckets[j].Valid() && buckets[j].Nodes == [] && fresh(buckets[j])
        invariant forall j, k :: 0 <= j < k < i ==> buckets[j] != buckets[k]
      {
        var b := new Bucket();
        buckets := buckets + [b];
      }
      PrefixMatchBuckets := buckets;
      Repr := {this} + (set b: Bucket | b in buckets);
    }

    /** The bucket is chosen: it alone changes. */
    method UpdateBucket(i: nat, re: RoutingEntry, alive: bool)
      requires Valid() && i < DSTORE_ID_SIZE && IsPrefixLen(own, re.id, i)
      modifies Repr
      ensures Valid() && fresh(Repr - old(Repr))
      ensures IsRefreshed(old(ContentsOf(i)), re, replicationParam, alive, ContentsOf(i))
      ensures forall j :: 0 <= j < DSTORE_ID_SIZE && j != i ==> ContentsOf(j) == old(ContentsOf(j))
    {
      hide IsRefreshed, IsPrefixLen, Indexed;
      var bucket := PrefixMatchBuckets[i];
      forall j | 0 <= j < DSTORE_ID_SIZE && j != i ensures Apart(bucket.Nodes, PrefixMatchBuckets[j].Nodes) {
        DisjointNodes(bucket.Nodes, PrefixMatchBuckets[j].Nodes, i, j);
      }
      bucket.Refresh(re, replicationParam, alive);
      RefreshedFits(old(bucket.Contents()), re, alive, bucket.Contents(), i);
      Repr := Repr + (set n: RoutingEntryNode | n in bucket.Nodes);
      forall j | 0 <= j < DSTORE_ID_SIZE && j != i
        ensures PrefixMatchBuckets[j].Valid() && PrefixMatchBuckets[j].Nodes == old(PrefixMatchBuckets[j].Nodes)
      {
        ghost var o := PrefixMatchBuckets[j];
        assert o != bucket && o.Nodes == old(o.Nodes) && o.EntryMap == old(o.EntryMap);
        assert forall n: RoutingEntryNode :: n in o.Nodes ==> n !in old(bucket.Nodes);
        Untouched(o);
      }
    }

    lemma DisjointNodes(ns: seq<RoutingEntryNode>, ms: seq<RoutingEntryNode>, i: nat, j: nat)
      requires BucketFits(Entries(ns), i) && BucketFits(Entries(ms), j) && i != j
      ensures Apart(ns, ms)
    {
      forall n | n in ns ensures n !in ms {
        var k :| 0 <= k < |ns| && ns[k] == n;
        assert Entries(ns)[k] in Entries(ns);
        if n in ms {
          var l :| 0 <= l < |ms| && ms[l] == n;
          assert Entries(ms)[l] in Entries(ms);
          PrefixLenUnique(own, n.entry.id, i, j);
        }
      }
    }

    lemma RefreshedFits(c: seq<RoutingEntry>, re: RoutingEntry, alive: bool, r: seq<RoutingEntry>, i: nat)
      requires BucketFits(c, i) && IsRefreshed(c, re, replicationParam, alive, r) && IsPrefixLen(own, re.id, i)
      ensures BucketFits(r, i)
    {
      hide IsPrefixLen;
      if Knows(c, re.id) {
        var k :| 0 <= k < |c| && c[k].id == re.id && r == Removed(c, k) + [c[k]];
        forall e | e in r ensures e in c { InRemoved(c, k, e); }
      }
    }

    /** What Update does with a heard node: nothing when it is ourselves or malformed, otherwise a
        refresh of the one bucket for its prefix length. The call is only defined when there is one. */
    method Update(id: Octets, address: string, alive: bool)
      requires Valid()
      requires |id| == DSTORE_ID_SIZE ==> !OutOfRange(own, id)
      modifies Repr
      ensures Valid() && fresh(Repr - old(Repr))
      ensures |id| != DSTORE_ID_SIZE || id == own ==>
        forall i :: 0 <= i < DSTORE_ID_SIZE ==> ContentsOf(i) == old(ContentsOf(i))
      ensures |id| == DSTORE_ID_SIZE && id != own ==> exists i ::
        && 0 <= i < DSTORE_ID_SIZE && IsPrefixLen(own, id, i)
        && IsRefreshed(old(ContentsOf(i)), RoutingEntry(id, address), replicationParam, alive, ContentsOf(i))
        && forall j :: 0 <= j < DSTORE_ID_SIZE && j != i ==> ContentsOf(j) == old(ContentsOf(j))
    {
      hide IsRefreshed, IsPrefixLen;
      var maxPrefLen := MaxPrefixLen(own, id);
      if |id| == DSTORE_ID_SIZE {
        FullPrefix(own, id, maxPrefLen);
      }
      if maxPrefLen < 0 || maxPrefLen >= 8 * DSTORE_ID_SIZE {
        return;
      }
      UpdateBucket(maxPrefLen, RoutingEntry(id, address), alive);
    }

    /** The entries of the first n buckets, each from its head. */
    ghost function EntriesUpto(n: nat): seq<RoutingEntry>
      requires n <= |PrefixMatchBuckets|
      reads this, PrefixMatchBuckets
    {
      if n == 0 then [] else EntriesUpto(n - 1) + PrefixMatchBuckets[n - 1].Contents()
    }

    ghost function AllEntries(): seq<RoutingEntry>
      reads this, PrefixMatchBuckets
    {
      EntriesUpto(|PrefixMatchBuckets|)
    }

    /** The k closest entries: the walk over every bucket, sorted and cut. Every entry returned is in a
        bucket, and every entry of a bucket is returned, or further than all that are, of which there are k
        then. */
    method FindKClosest(target: ID, k: nat) returns (res: seq<RoutingEntry>)
      requires Valid()
      ensures IsClosest(target, k, AllEntries(), res)
      ensures |res| <= k
      ensures forall e :: e in res ==> InBuckets(e)
      ensures forall e :: InBuckets(e) && e !in res ==>
        |res| == k && forall r :: r in res ==> Dist(target, r.id) < Dist(target, e.id)
      ensures forall i, j :: 0 <= i < j < |res| ==> Dist(target, res[i].id) < Dist(target, res[j].id)
    {
      hide IsClosest;
      var list: seq<RoutingEntry> := [];
      for i := 0 to |PrefixMatchBuckets|
        invariant list == EntriesUpto(i)
      {
        var bucket := PrefixMatchBuckets[i];
        var entries := bucket.Walk();
        list := list + entries;
      }
      AllDistinct(|PrefixMatchBuckets|);
      CutIsClosest(target, k, list);
      var sorted := Sort(ByDistance(target), list);
      res := if k < |sorted| then sorted[..k] else sorted;
      forall e ensures e in AllEntries() <==> InBuckets(e) { InAllEntries(|PrefixMatchBuckets|, e); }
      ClosestLeavesOut(target, k, AllEntries(), res);
    }

    ghost predicate InBuckets(e: RoutingEntry)
      reads this, PrefixMatchBuckets
    {
      exists i :: 0 <= i < |PrefixMatchBuckets| && e in ContentsOf(i)
    }

    /** The entries listed are those of the buckets, of every one. */
    lemma {:induction false} InAllEntries(n: nat, e: RoutingEntry)
      requires n <= |PrefixMatchBuckets|
      ensures e in EntriesUpto(n) <==> exists i :: 0 <= i < n && e in ContentsOf(i)
    {
      if n > 0 {
        InAllEntries(n - 1, e);
        assert e in EntriesUpto(n) <==> e in EntriesUpto(n - 1) || e in ContentsOf(n - 1);
      }
    }

    lemma EntryPrefix(n: nat, e: RoutingEntry) returns (i: nat)
      requires Valid() && n <= |PrefixMatchBuckets| && e in EntriesUpto(n)
      ensures i < n && e in PrefixMatchBuckets[i].Contents() && IsPrefixLen(own, e.id, i)
    {
      var last := PrefixMatchBuckets[n - 1].Contents();
      if e in last {
        assert BucketFits(last, n - 1);
        i := n - 1;
      } else {
        i := EntryPrefix(n - 1, e);
      }
    }

    lemma AllDistinct(n: nat)
      requires Valid() && n <= |PrefixMatchBuckets|
      ensures DistinctIds(EntriesUpto(n))
    {
      if n > 0 {
        AllDistinct(n - 1);
        var init, last := EntriesUpto(n - 1), PrefixMatchBuckets[n - 1].Contents();
        forall i, j | 0 <= i < |init| && 0 <= j < |last| ensures init[i].id != last[j].id {
          var k := EntryPrefix(n - 1, init[i]);
          assert BucketFits(last, n - 1) && last[j] in last;
        }
      }
    }
  }

  /** The order FindKClosest sorts by. */
  function ByDistance(target: ID): RoutingEntry -> nat {
    (e: RoutingEntry) => Order(target)(e.id)
  }

  /** min(k, |all|) distinct entries in increasing distance, none left out being as close as one
      returned. */
  ghost predicate IsClosest(target: ID, k: nat, all: seq<RoutingEntry>, res: seq<RoutingEntry>) {
    && |res| == (if k < |all| then k else |all|)
    && (forall e :: e in res ==> e in all)
    && (forall i, j :: 0 <= i < j < |res| ==> Dist(target, res[i].id) < Dist(target, res[j].id))
    && (forall e, r :: e in all && e !in res && r in res ==> Dist(target, r.id) < Dist(target, e.id))
  }

  lemma ClosestLeavesOut(target: ID, k: nat, all: seq<RoutingEntry>, res: seq<RoutingEntry>)
    requires IsClosest(target, k, all, res)
    ensures |res| <= k
    ensures forall e :: e in res ==> e in all
    ensures forall i, j :: 0 <= i < j < |res| ==> Dist(target, res[i].id) < Dist(target, res[j].id)
    ensures forall e :: e in all && e !in res ==>
      |res| == k && forall r :: r in res ==> Dist(target, r.id) < Dist(target, e.id)
  {
    hide Dist;
    forall e | e in all && e !in res ensures |res| == k {
      // all of them would leave no room for e
      NoRoom(all, res, e);
    }
  }

  /** Distinct entries of a list that has one more are fewer. */
  lemma NoRoom(all: seq<RoutingEntry>, res: seq<RoutingEntry>, e: RoutingEntry)
    requires forall x :: x in res ==> x in all
    requires NoDuplicates(res) && e in all && e !in res
    ensures |res| < |all|
  {
    NoDuplicatesCount(res);
    var more := multiset(res) + multiset{e};
    forall x ensures more[x] <= multiset(all)[x] {
      assert x in multiset(res) <==> x in res;
      assert x in multiset(all) <==> x in all;
    }
    assert multiset(all) == more + (multiset(all) - more);
  }

  lemma StrictOrder(target: ID, s: seq<RoutingEntry>, i: nat, j: nat)
    requires Sorted(ByDistance(target), s) && NoDuplicates(s) && i < j < |s|
    requires s[i].id != s[j].id
    ensures Dist(target, s[i].id) < Dist(target, s[j].id)
  {
    var key := ByDistance(target);
    assert Order(target)(s[i].id) == Dist(target, s[i].id) && Order(target)(s[j].id) == Dist(target, s[j].id);
    assert key(s[i]) <= key(s[j]);
    DistInjective(target, s[i].id, s[j].id);
  }

  lemma CutIsClosest(target: ID, k: nat, all: seq<RoutingEntry>)
    requires DistinctIds(all)
    ensures var s := Sort(ByDistance(target), all);
      IsClosest(target, k, all, if k < |s| then s[..k] else s)
  {
    hide Dist, Sort, ByDistance;
    var s := Sort(ByDistance(target), all);
    SortKeeps(ByDistance(target), all);
    forall i, j | 0 <= i < j < |s| ensures Dist(target, s[i].id) < Dist(target, s[j].id) {
      DistinctInAnyOrder(all, s, i, j);
      StrictOrder(target, s, i, j);
    }
    CutOfSorted(target, k, all, s);
  }

  lemma CutOfSorted(target: ID, k: nat, all: seq<RoutingEntry>, s: seq<RoutingEntry>)
    requires |s| == |all| && forall e :: e in s <==> e in all
    requires forall i, j :: 0 <= i < j < |s| ==> Dist(target, s[i].id) < Dist(target, s[j].id)
    ensures IsClosest(target, k, all, if k < |s| then s[..k] else s)
  {
    hide Dist;
    var res := if k < |s| then s[..k] else s;
    forall e, r | e in all && e !in res && r in res ensures Dist(target, r.id) < Dist(target, e.id) {
      var j :| 0 <= j < |s| && s[j] == e;
      var i :| 0 <= i < |res| && res[i] == r;
      assert s[i] == r;
    }
  }

  lemma DistinctInAnyOrder(all: seq<RoutingEntry>, s: seq<RoutingEntry>, i: nat, j: nat)
    requires DistinctIds(all) && NoDuplicates(s) && (forall x :: x in s <==> x in all) && i < j < |s|
    ensures s[i].id != s[j].id
  {
    assert s[i] in all && s[j] in all;
  }

  /** Only equal identifiers agree on all bits. */
  lemma FullPrefix(a: Octets, b: Octets, n: nat)
    requires |a| == |b| && IsPrefixLen(a, b, n)
    ensures n <= 8 * |a| && (n == 8 * |a| <==> a == b)
  {
    if n == 8 * |a| {
      forall j | 0 <= j < 8 * |a| ensures GetBit(Xor(a, b), j) == 0 { BitOfXor(a, b, j); }
      ZeroBits(Xor(a, b));
      DistInjective(a, b, b);
    }
  }

  /** The identifiers Update cannot place are exactly those other than our own that share our most
      significant byte. */
  lemma OutOfRangeIff(own: ID, id: ID)
    ensures OutOfRange(own, id) <==> own != id && own[7] == id[7]
  {
    var n := PrefixLenExists(own, id, 64);
    forall m | IsPrefixLen(own, id, m) ensures m == n { PrefixLenUnique(own, id, m, n); }
    FullPrefix(own, id, n);
    TopByte(own, id);
  }

  lemma {:induction false} PrefixLenExists(a: ID, b: ID, k: nat) returns (n: nat)
    requires k <= 64 && AgreeFrom(a, b, k)
    ensures IsPrefixLen(a, b, n) && n >= 64 - k
  {
    if k == 0 || GetBit(a, k - 1) != GetBit(b, k - 1) {
      n := 64 - k;
    } else {
      n := PrefixLenExists(a, b, k - 1);
    }
  }

  lemma TopBit(a: ID, j: nat)
    requires j < 8
    ensures GetBit(a, 56 + j) == (a[7] >> j) & 1
  {
  }

  /** The top byte is shared exactly when the eight most significant bits are. */
  lemma TopByte(a: ID, b: ID)
    ensures a[7] == b[7] <==> AgreeFrom(a, b, 56)
  {
    hide GetBit;
    if a[7] == b[7] {
      forall k: nat | 56 <= k < 64 ensures GetBit(a, k) == GetBit(b, k) {
        TopBit(a, k - 56);
        TopBit(b, k - 56);
      }
    } else if AgreeFrom(a, b, 56) {
      forall j: nat | j < 8 ensures Digit(a[7], j) == Digit(b[7], j) {
        TopBit(a, j);
        TopBit(b, j);
      }
      SameDigits(a[7], b[7]);
    }
  }

  lemma SameDigits(x: bv8, y: bv8)
    requires forall j: nat :: j < 8 ==> Digit(x, j) == Digit(y, j)
    ensures x == y
  {
    hide Digit, Value;
    ByteDigits(x);
    ByteDigits(y);
    ByteOrder(x, y);
    ByteOrder(y, x);
  }

  /** An update forgets nobody but a head that does not answer, and only from a full bucket. */
  lemma OnlyDeadHeadEvicted(c: seq<RoutingEntry>, re: RoutingEntry, k: nat, alive: bool, r: seq<RoutingEntry>,
                            e: RoutingEntry)
    requires IsRefreshed(c, re, k, alive, r) && DistinctIds(c) && e in c && e !in r
    ensures e == c[0] && !alive && |c| >= k && !Knows(c, re.id)
  {
    if Knows(c, re.id) {
      var i :| 0 <= i < |c| && c[i].id == re.id && r == Removed(c, i) + [c[i]];
      InRemoved(c, i, e);
    } else {
      var i :| 0 <= i < |c| && c[i] == e;
      if i > 0 { assert c[1..][i - 1] == e; }
    }
  }
}
