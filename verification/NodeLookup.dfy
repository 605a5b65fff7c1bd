/** storage/lookup.go: the iterative search for the nodes closest to an identifier.

    The n-th wait for a reply ends with net(n): a message, or None for a timeout. A pair of the
    code's entryList is identified with its key in entryMap, which holds one pair per identifier. */
module NodeLookup {
  import opened Basics
  import opened XorMetric
  import opened Sorting
  import opened Routing

  datatype Reply = Reply(source: ID, nodes: seq<RoutingEntry>)

  /** Replies by number of wait. */
  type Network = nat -> Option<Reply>

  datatype DistEntryPair = DistEntryPair(entry: RoutingEntry, contacted: bool, responded: bool)

  /** For each wait so far: None while candidates are gathered, when any reply may come; afterwards the
      one identifier just asked. */
  type Waits = seq<Option<ID>>

  ghost function Ids(nodes: seq<RoutingEntry>): set<ID> {
    set n | n in nodes :: n.id
  }

  ghost function NodeSet(nodes: seq<RoutingEntry>): set<RoutingEntry> {
    set n | n in nodes
  }

  // ---- what the network says ----

  /** The nodes learned by the end of these waits: the initial ones, and those in the replies taken. */
  ghost function Learned(nodes: seq<RoutingEntry>, net: Network, waits: Waits): set<RoutingEntry>
    decreases |waits|, 0
  {
    if waits == [] then NodeSet(nodes) else
    var before := Learned(nodes, net, waits[..|waits| - 1]);
    if LastTaken(nodes, net, waits) then before + NodeSet(net(|waits| - 1).value.nodes) else before
  }

  ghost function Known(nodes: seq<RoutingEntry>, net: Network, waits: Waits): set<ID>
    decreases |waits|, 1
  {
    set e | e in Learned(nodes, net, waits) :: e.id
  }

  /** The last wait brought a reply, and while candidates are gathered it is from a known node. */
  ghost predicate LastTaken(nodes: seq<RoutingEntry>, net: Network, waits: Waits)
    requires waits != []
    decreases |waits| - 1, 2
  {
    var m := |waits| - 1;
    net(m).Some? && (waits[m].None? ==> net(m).value.source in Known(nodes, net, waits[..m]))
  }

  /** Whom the last reply counts for. */
  ghost function LastResponder(net: Network, waits: Waits): ID
    requires waits != [] && net(|waits| - 1).Some?
  {
    var m := |waits| - 1;
    if waits[m].Some? then waits[m].value else net(m).value.source
  }

  ghost function Replied(nodes: seq<RoutingEntry>, net: Network, waits: Waits): set<ID> {
    if waits == [] then {} else
    Replied(nodes, net, waits[..|waits| - 1])
      + if LastTaken(nodes, net, waits) then {LastResponder(net, waits)} else {}
  }

  /** An identifier has replied exactly when some wait brought a reply: in the gathering phase one that
      names it, at a time when it was known; afterwards one to the request to it. */
  lemma {:induction false} RepliedMeans(nodes: seq<RoutingEntry>, net: Network, waits: Waits, id: ID)
    ensures id in Replied(nodes, net, waits) <==> exists m: nat :: m < |waits| && RepliesAt(nodes, net, waits, m, id)
    decreases |waits|
  {
    if waits != [] {
      var init, n := waits[..|waits| - 1], |waits| - 1;
      RepliedMeans(nodes, net, init, id);
      forall m: nat | m < n ensures RepliesAt(nodes, net, waits, m, id) <==> RepliesAt(nodes, net, init, m, id) {
        assert waits[..m] == init[..m];
      }
      assert id in Replied(nodes, net, waits)
        <==> id in Replied(nodes, net, init) || RepliesAt(nodes, net, waits, n, id);
    }
  }

  ghost predicate RepliesAt(nodes: seq<RoutingEntry>, net: Network, waits: Waits, m: nat, id: ID)
    requires m < |waits|
  {
    && net(m).Some?
    && if waits[m].Some? then waits[m].value == id
       else net(m).value.source == id && id in Known(nodes, net, waits[..m])
  }

  // ---- the bookkeeping of a search ----

  datatype Search = Search(
    target: ID, entryList: seq<ID>, entryMap: map<ID, DistEntryPair>, requests: seq<ID>, waits: Waits)
  {
    predicate Contacted(id: ID) {
      id in entryMap && entryMap[id].contacted
    }

    predicate Responded(id: ID) {
      id in entryMap && entryMap[id].responded
    }

    /** Every known identifier is in the list once, or was dropped after it failed to reply;
        the contacted ones are those that got a request, once each. */
    ghost predicate Consistent() {
      && (forall id :: id in entryMap ==> entryMap[id].entry.id == id)
      && NoDuplicates(entryList)
      && (forall id :: id in entryList ==> id in entryMap)
      && (forall id :: id in entryMap ==> id in entryList || (Contacted(id) && !Responded(id)))
      && NoDuplicates(requests)
      && (forall id :: id in requests <==> Contacted(id))
    }

    /** A wait for one identifier is for the request of the same number; such waits come last. */
    ghost predicate WaitsFit() {
      && |waits| <= |requests|
      && (forall m :: 0 <= m < |waits| && waits[m].Some? ==> waits[m].value == requests[m])
      && (forall m, n :: 0 <= m < n < |waits| && waits[m].Some? ==> waits[n].Some?)
    }

    /** The bookkeeping tells what the network said: who is known, with which entry, and who replied. */
    ghost predicate Valid(nodes: seq<RoutingEntry>, net: Network) {
      && Consistent() && WaitsFit()
      && entryMap.Keys == Known(nodes, net, waits)
      && (forall id :: id in entryMap ==> entryMap[id].entry in Learned(nodes, net, waits))
      && (forall id :: Responded(id) <==> id in Replied(nodes, net, waits))
    }

    ghost function Requested(): set<ID> {
      set id | id in requests
    }
  }

  // ---- a finite space of identifiers ----

  ghost function AllBytes(n: nat): set<bv8>
    requires n <= 256
  {
    if n == 0 then {} else AllBytes(n - 1) + {(n - 1) as bv8}
  }

  lemma {:induction false} InAllBytes(n: nat, x: bv8)
    requires n <= 256 && x as int < n
    ensures x in AllBytes(n)
  {
    if x as int < n - 1 { InAllBytes(n - 1, x); } else { assert x == (n - 1) as bv8; }
  }

  ghost function AllOctets(n: nat): set<Octets> {
    if n == 0 then {[]} else set x, t | x in AllBytes(256) && t in AllOctets(n - 1) :: [x] + t
  }

  lemma {:induction false} InAllOctets(a: Octets)
    ensures a in AllOctets(|a|)
  {
    hide AllBytes;
    if a != [] {
      InAllBytes(256, a[0]);
      InAllOctets(a[1..]);
      assert a == [a[0]] + a[1..];
    }
  }

  /** How many identifiers are not yet in known. */
  ghost function Remaining(known: set<ID>): nat {
    |set a | a in AllOctets(DSTORE_ID_SIZE) && a !in known|
  }

  lemma RemainingDrops(known: set<ID>, more: set<ID>)
    requires known < more
    ensures Remaining(more) < Remaining(known)
  {
    var x :| x in more && x !in known;
    InAllOctets(x);
    var all := AllOctets(DSTORE_ID_SIZE);
    var left, before := set a | a in all && a !in more, set a | a in all && a !in known;
    assert x in before && x !in left;
    SubsetSize(left, before);
  }

  // ---- the list of candidates ----

  function Sorted(s: Search): Search {
    s.(entryList := Sort(Order(s.target), s.entryList))
  }

  lemma SortedValid(s: Search, nodes: seq<RoutingEntry>, net: Network)
    requires s.Valid(nodes, net)
    ensures Sorted(s).Valid(nodes, net)
    ensures Sorting.Sorted(Order(s.target), Sorted(s).entryList)
  {
    SortKeeps(Order(s.target), s.entryList);
  }

  function Contact(s: Search, id: ID): Search
    requires id in s.entryMap
  {
    s.(entryMap := s.entryMap[id := s.entryMap[id].(contacted := true)], requests := s.requests + [id])
  }

  function Respond(s: Search, id: ID): Search
    requires id in s.entryMap
  {
    s.(entryMap := s.entryMap[id := s.entryMap[id].(responded := true)])
  }

  function Drop(s: Search, k: nat): Search
    requires k < |s.entryList|
  {
    s.(entryList := s.entryList[..k] + s.entryList[k + 1..])
  }

  lemma ContactValid(s: Search, nodes: seq<RoutingEntry>, net: Network, id: ID)
    requires s.Valid(nodes, net) && id in s.entryList && !s.Contacted(id)
    ensures Contact(s, id).Valid(nodes, net)
  {
  }

  lemma DropValid(s: Search, nodes: seq<RoutingEntry>, net: Network, k: nat)
    requires s.Valid(nodes, net) && k < |s.entryList|
    requires s.Contacted(s.entryList[k]) && !s.Responded(s.entryList[k])
    ensures Drop(s, k).Valid(nodes, net)
  {
    var id, r := s.entryList[k], Drop(s, k).entryList;
    forall x ensures x in s.entryList <==> x in r || x == id {
      if x in s.entryList {
        var i :| 0 <= i < |s.entryList| && s.entryList[i] == x;
        assert i < k ==> r[i] == x;
        assert i > k ==> r[i - 1] == x;
      }
    }
  }

  // ---- learning from a reply ----

  /** A node not seen before is appended with a fresh pair. */
  function LearnOne(s: Search, re: RoutingEntry): Search {
    if re.id in s.entryMap then s else
    s.(entryList := s.entryList + [re.id], entryMap := s.entryMap[re.id := DistEntryPair(re, false, false)])
  }

  function Learn(s: Search, nodes: seq<RoutingEntry>): Search {
    if nodes == [] then s else LearnOne(Learn(s, nodes[..|nodes| - 1]), nodes[|nodes| - 1])
  }

  /** r knows what s does and, besides, the identifiers of nodes, as they are given there. */
  ghost predicate Extends(s: Search, r: Search, nodes: seq<RoutingEntry>) {
    && r == s.(entryList := r.entryList, entryMap := r.entryMap)
    && s.entryList <= r.entryList
    && r.entryMap.Keys == s.entryMap.Keys + Ids(nodes)
    && (forall id :: id in s.entryMap ==> r.entryMap[id] == s.entryMap[id])
    && (forall id :: id in r.entryMap && id !in s.entryMap ==>
          && id in r.entryList && r.entryMap[id].entry in nodes
          && !r.entryMap[id].contacted && !r.entryMap[id].responded)
  }

  lemma LearnOneKeeps(s: Search, re: RoutingEntry)
    requires s.Consistent()
    ensures LearnOne(s, re).Consistent() && Extends(s, LearnOne(s, re), [re])
  {
    var r := LearnOne(s, re);
    if re.id !in s.entryMap {
      assert r.entryList[|s.entryList|] == re.id;
      forall id | id in s.entryList ensures id in r.entryList {
        var i :| 0 <= i < |s.entryList| && s.entryList[i] == id;
        assert r.entryList[i] == id;
      }
    }
  }

  lemma ExtendsStep(s: Search, r: Search, t: Search, nodes: seq<RoutingEntry>, re: RoutingEntry)
    requires Extends(s, r, nodes) && Extends(r, t, [re])
    ensures Extends(s, t, nodes + [re])
  {
    var more := nodes + [re];
    assert more[|nodes|] == re;
    forall n ensures n in more <==> n in nodes || n == re {
      if n in nodes {
        var i :| 0 <= i < |nodes| && nodes[i] == n;
        assert more[i] == n;
      }
    }
    forall id | id in r.entryList ensures id in t.entryList {
      var i :| 0 <= i < |r.entryList| && r.entryList[i] == id;
      assert t.entryList[i] == id;
    }
  }

  lemma {:induction false} LearnKeeps(s: Search, nodes: seq<RoutingEntry>)
    requires s.Consistent()
    ensures Learn(s, nodes).Consistent() && Extends(s, Learn(s, nodes), nodes)
  {
    hide Extends, Search.Consistent, LearnOne;
    if nodes == [] {
      assert Extends(s, s, []) by { ExtendsNothing(s); }
    } else {
      var init, last := nodes[..|nodes| - 1], nodes[|nodes| - 1];
      LearnKeeps(s, init);
      LearnOneKeeps(Learn(s, init), last);
      ExtendsStep(s, Learn(s, init), Learn(s, nodes), init, last);
      assert nodes == init + [last];
    }
  }

  lemma ExtendsNothing(s: Search)
    ensures Extends(s, s, [])
  {
  }

  /** A new node finds room among the first k of the list, or displaces the last of these, as the list stands. */
  predicate Displaces(s: Search, re: RoutingEntry, k: nat) {
    && re.id !in s.entryMap
    && (|s.entryList| < k || (k > 0 && Dist(s.target, re.id) < Dist(s.target, s.entryList[k - 1])))
  }

  /** One of the nodes does so when its turn comes. */
  ghost predicate Improves(s: Search, nodes: seq<RoutingEntry>, k: nat) {
    && nodes != []
    && var init := nodes[..|nodes| - 1];
       Improves(s, init, k) || Displaces(Learn(s, init), nodes[|nodes| - 1], k)
  }

  /** The loop over the nodes of a reply. */
  method AbsorbReply(s: Search, reply: Reply, replicationParam: nat) returns (r: Search, updated: bool)
    requires replicationParam >= 1 && s.Consistent()
    ensures r == Learn(s, reply.nodes)
    ensures updated <==> Improves(s, reply.nodes, replicationParam)
    ensures updated ==> s.entryMap.Keys < r.entryMap.Keys
  {
    hide Search.Consistent, Dist, LearnOne;
    r, updated := s, false;
    for i := 0 to |reply.nodes|
      invariant updated <==> Improves(s, reply.nodes[..i], replicationParam)
      invariant r == Learn(s, reply.nodes[..i]) && r.Consistent()
      invariant s.entryMap.Keys <= r.entryMap.Keys
      invariant updated ==> s.entryMap.Keys < r.entryMap.Keys
    {
      var re := reply.nodes[i];
      if re.id !in r.entryMap {
        if |r.entryList| < replicationParam
          || Dist(s.target, re.id) < Dist(s.target, r.entryList[replicationParam - 1]) {
          updated := true;
        }
      }
      assert reply.nodes[..i + 1][..i] == reply.nodes[..i];
      LearnKeeps(s, reply.nodes[..i]);
      LearnOneKeeps(r, re);
      assert re in [re] && re.id in Ids([re]);
      r := LearnOne(r, re);
    }
    assert reply.nodes[..|reply.nodes|] == reply.nodes;
  }

  // ---- one wait ----

  /** A wait while candidates are gathered; a reply from an unknown source is ignored. */
  function Take(s: Search, m: Option<Reply>): Search {
    var s1 := s.(waits := s.waits + [None]);
    if m.Some? && m.value.source in s.entryMap then Learn(Respond(s1, m.value.source), m.value.nodes) else s1
  }

  /** A request afterwards, with the wait for its reply. */
  function Ask(s: Search, id: ID, m: Option<Reply>): Search
    requires id in s.entryMap
  {
    var s1 := Contact(s, id).(waits := s.waits + [Some(id)]);
    if m.Some? then Learn(Respond(s1, id), m.value.nodes) else s1
  }

  /** From a state of the bookkeeping that lacks only the last reply. */
  ghost predicate ButForLast(s: Search, nodes: seq<RoutingEntry>, net: Network) {
    && s.Consistent() && s.WaitsFit() && s.waits != []
    && var init := s.waits[..|s.waits| - 1];
    && s.entryMap.Keys == Known(nodes, net, init)
    && (forall id :: id in s.entryMap ==> s.entryMap[id].entry in Learned(nodes, net, init))
    && (forall id :: s.Responded(id) <==> id in Replied(nodes, net, s.waits))
  }

  lemma LearnedValid(s: Search, nodes: seq<RoutingEntry>, net: Network)
    requires ButForLast(s, nodes, net)
    ensures LastTaken(nodes, net, s.waits) ==> Learn(s, net(|s.waits| - 1).value.nodes).Valid(nodes, net)
    ensures !LastTaken(nodes, net, s.waits) ==> s.Valid(nodes, net)
  {
    hide LastTaken, Replied, Learn, Learned, Known;
    var init, n := s.waits[..|s.waits| - 1], |s.waits| - 1;
    assert init + [s.waits[n]] == s.waits;
    LearnedSnoc(nodes, net, s.waits);
    if LastTaken(nodes, net, s.waits) {
      LearnKeeps(s, net(n).value.nodes);
    }
  }

  lemma LearnedSnoc(nodes: seq<RoutingEntry>, net: Network, waits: Waits)
    requires waits != []
    ensures var init, n := waits[..|waits| - 1], |waits| - 1;
      if LastTaken(nodes, net, waits) then
        && net(n).Some?
        && Learned(nodes, net, waits) == Learned(nodes, net, init) + NodeSet(net(n).value.nodes)
        && Known(nodes, net, waits) == Known(nodes, net, init) + Ids(net(n).value.nodes)
      else
        Learned(nodes, net, waits) == Learned(nodes, net, init) && Known(nodes, net, waits) == Known(nodes, net, init)
  {
  }

  /** The first j waits of a round. */
  function TakeAll(s: Search, net: Network, j: nat): Search {
    if j == 0 then s else Take(TakeAll(s, net, j - 1), net(|s.waits| + j - 1))
  }

  ghost predicate WaitImproves(s: Search, m: Option<Reply>, k: nat) {
    && m.Some? && m.value.source in s.entryMap
    && Improves(Respond(s.(waits := s.waits + [None]), m.value.source), m.value.nodes, k)
  }

  /** One of them brings a node that displaces one of the first k. */
  ghost predicate RoundImproves(s: Search, net: Network, j: nat, k: nat) {
    && j > 0
    && (RoundImproves(s, net, j - 1, k) || WaitImproves(TakeAll(s, net, j - 1), net(|s.waits| + j - 1), k))
  }

  // ---- the search ----

  /** While candidates are gathered nothing is dropped. */
  ghost predicate Gathering(nodes: seq<RoutingEntry>, net: Network, s: Search) {
    && s.Valid(nodes, net)
    && (forall m :: 0 <= m < |s.waits| ==> s.waits[m].None?)
    && forall id :: id in s.entryMap ==> id in s.entryList
  }

  /** What one more wait, for w, does to what the network has said. */
  ghost predicate CountsFor(nodes: seq<RoutingEntry>, net: Network, waits: Waits, w: Option<ID>, id: ID) {
    var m := net(|waits|);
    && m.Some?
    && if w.Some? then w.value == id else m.value.source == id && id in Known(nodes, net, waits)
  }

  lemma RepliedSnoc(nodes: seq<RoutingEntry>, net: Network, waits: Waits, w: Option<ID>, id: ID)
    ensures id in Replied(nodes, net, waits + [w])
      <==> id in Replied(nodes, net, waits) || CountsFor(nodes, net, waits, w, id)
    ensures CountsFor(nodes, net, waits, w, id) ==> LastTaken(nodes, net, waits + [w])
  {
    assert (waits + [w])[..|waits|] == waits;
  }

  lemma NotTaken(nodes: seq<RoutingEntry>, net: Network, waits: Waits, w: Option<ID>)
    requires var m := net(|waits|);
      m.None? || (w.None? && m.value.source !in Known(nodes, net, waits))
    ensures !LastTaken(nodes, net, waits + [w]) && forall id :: !CountsFor(nodes, net, waits, w, id)
  {
    assert (waits + [w])[..|waits|] == waits;
  }

  /** A wait without a reply that counts. */
  lemma IdleWait(s: Search, nodes: seq<RoutingEntry>, net: Network, w: Option<ID>)
    requires s.Valid(nodes, net) && s.(waits := s.waits + [w]).WaitsFit()
    requires var m := net(|s.waits|);
      m.None? || (w.None? && m.value.source !in s.entryMap)
    ensures s.(waits := s.waits + [w]).Valid(nodes, net)
  {
    hide Learned, Known, Replied, LastTaken, CountsFor;
    var s1 := s.(waits := s.waits + [w]);
    assert s1.waits[..|s.waits|] == s.waits;
    NotTaken(nodes, net, s.waits, w);
    forall id ensures s1.Responded(id) <==> id in Replied(nodes, net, s1.waits) {
      RepliedSnoc(nodes, net, s.waits, w, id);
    }
    LearnedSnoc(nodes, net, s1.waits);
  }

  /** A wait with a reply that counts for id. */
  lemma RepliedWait(s: Search, nodes: seq<RoutingEntry>, net: Network, w: Option<ID>, id: ID)
    requires s.Valid(nodes, net) && s.(waits := s.waits + [w]).WaitsFit() && id in s.entryList
    requires net(|s.waits|).Some? && (if w.Some? then w.value == id else net(|s.waits|).value.source == id)
    ensures var s1 := Respond(s.(waits := s.waits + [w]), id);
      var r := Learn(s1, net(|s.waits|).value.nodes);
      r.Valid(nodes, net) && Extends(s1, r, net(|s.waits|).value.nodes)
  {
    hide Learned, Known, Replied, LastTaken, Learn, Extends;
    var s1 := Respond(s.(waits := s.waits + [w]), id);
    assert s1.waits[..|s.waits|] == s.waits;
    forall x ensures s1.Responded(x) <==> x in Replied(nodes, net, s1.waits) {
      RepliedSnoc(nodes, net, s.waits, w, x);
    }
    RepliedSnoc(nodes, net, s.waits, w, id);
    RespondConsistent(s, w, id);
    LearnedValid(s1, nodes, net);
    LearnKeeps(s1, net(|s.waits|).value.nodes);
  }

  lemma RespondConsistent(s: Search, w: Option<ID>, id: ID)
    requires s.Consistent() && id in s.entryList
    ensures Respond(s.(waits := s.waits + [w]), id).Consistent()
  {
  }

  lemma TakeKeeps(nodes: seq<RoutingEntry>, net: Network, s: Search)
    requires Gathering(nodes, net, s) && |s.waits| < |s.requests|
    ensures var r := Take(s, net(|s.waits|));
      && Gathering(nodes, net, r) && r.requests == s.requests && r.target == s.target
      && |r.waits| == |s.waits| + 1 && s.entryMap.Keys <= r.entryMap.Keys
  {
    hide Learned, Known, Replied, Learn, Search.Consistent;
    var m := net(|s.waits|);
    if m.Some? && m.value.source in s.entryMap {
      RepliedWait(s, nodes, net, None, m.value.source);
    } else {
      IdleWait(s, nodes, net, None);
    }
  }

  lemma AskKeeps(nodes: seq<RoutingEntry>, net: Network, s: Search, id: ID)
    requires s.Valid(nodes, net) && |s.waits| == |s.requests| && id in s.entryList && !s.Contacted(id)
    ensures var r := Ask(s, id, net(|s.waits|));
      && r.Valid(nodes, net) && |r.waits| == |r.requests| && r.target == s.target
      && s.Requested() < r.Requested()
  {
    hide Learned, Known, Replied, Learn;
    var m := net(|s.waits|);
    RequestAdded(s, id);
    ContactValid(s, nodes, net, id);
    hide Search.Consistent;
    if m.Some? {
      RepliedWait(Contact(s, id), nodes, net, Some(id), id);
    } else {
      IdleWait(Contact(s, id), nodes, net, Some(id));
    }
  }

  lemma RequestAdded(s: Search, id: ID)
    requires id in s.entryMap && id !in s.requests
    ensures s.Requested() < Contact(s, id).Requested()
  {
    var c := Contact(s, id);
    assert c.requests[|s.requests|] == id;
    assert id in c.Requested();
    forall x | x in s.requests ensures x in c.requests {
      var i :| 0 <= i < |s.requests| && s.requests[i] == x;
      assert c.requests[i] == x;
    }
  }

  /** Requests to the first entries of the list not contacted yet, concurrencyParam of them at most. */
  method ContactClosest(s: Search, nodes: seq<RoutingEntry>, net: Network, concurrencyParam: nat)
    returns (r: Search, j: nat)
    requires Gathering(nodes, net, s) && |s.waits| == |s.requests|
    ensures Gathering(nodes, net, r) && r.entryList == s.entryList && r.waits == s.waits && r.target == s.target
    ensures |r.requests| == |s.requests| + j && r.entryMap.Keys == s.entryMap.Keys
    ensures j <= concurrencyParam
    ensures exists n: nat :: n <= |s.entryList| && AskedUpto(s, r, n) && (n < |s.entryList| ==> j == concurrencyParam)
  {
    hide Learned, Known, Replied;
    r, j := s, 0;
    var i := 0;
    while i < |r.entryList| && j < concurrencyParam
      invariant i <= |s.entryList| && j <= concurrencyParam
      invariant Gathering(nodes, net, r) && r.entryList == s.entryList && r.waits == s.waits && r.target == s.target
      invariant |r.requests| == |s.requests| + j && r.entryMap.Keys == s.entryMap.Keys
      invariant AskedUpto(s, r, i)
      decreases |s.entryList| - i
    {
      var id := r.entryList[i];
      if !r.Contacted(id) {
        j := j + 1;
        ContactValid(r, nodes, net, id);
        r := Contact(r, id);
      }
      i := i + 1;
    }
    assert AskedUpto(s, r, i);
  }

  /** r asks the first n entries of the list, and no more than s the others. */
  ghost predicate AskedUpto(s: Search, r: Search, n: nat)
    requires n <= |s.entryList|
  {
    forall i :: 0 <= i < |s.entryList| ==>
      (r.Contacted(s.entryList[i]) <==> i < n || s.Contacted(s.entryList[i]))
  }

  /** The waits for the replies to the last j requests. */
  method Gather(s: Search, nodes: seq<RoutingEntry>, net: Network, j: nat, replicationParam: nat)
    returns (r: Search, updated: bool)
    requires replicationParam >= 1 && Gathering(nodes, net, s) && |s.waits| + j == |s.requests|
    ensures Gathering(nodes, net, r) && r.requests == s.requests && r.target == s.target
    ensures |r.waits| == |r.requests|
    ensures r == TakeAll(s, net, j) && (updated <==> RoundImproves(s, net, j, replicationParam))
    ensures updated ==> s.entryMap.Keys < r.entryMap.Keys
  {
    hide Gathering, Learn, Search.Consistent, Improves;
    r, updated := s, false;
    for k := 0 to j
      invariant r == TakeAll(s, net, k) && (updated <==> RoundImproves(s, net, k, replicationParam))
      invariant Gathering(nodes, net, r) && r.requests == s.requests && r.target == s.target
      invariant |r.waits| == |s.waits| + k && s.entryMap.Keys <= r.entryMap.Keys
      invariant updated ==> s.entryMap.Keys < r.entryMap.Keys
    {
      var m := net(|r.waits|);
      TakeKeeps(nodes, net, r);
      ghost var taken := Take(r, m);
      r := r.(waits := r.waits + [None]);
      if m.Some? && m.value.source in r.entryMap {
        RespondGathered(nodes, net, r, m.value.source);
        var closer: bool;
        r, closer := AbsorbReply(Respond(r, m.value.source), m.value, replicationParam);
        updated := updated || closer;
      }
      assert r == taken;
    }
  }

  lemma RespondGathered(nodes: seq<RoutingEntry>, net: Network, s: Search, id: ID)
    requires s.waits != [] && s.waits[|s.waits| - 1].None?
    requires Gathering(nodes, net, s.(waits := s.waits[..|s.waits| - 1])) && id in s.entryMap
    ensures Respond(s, id).Consistent()
  {
    hide Learned, Known, Replied;
  }

  // ---- the final phase ----

  /** Everything before position n of the list has replied. */
  ghost predicate Settled(s: Search, n: nat) {
    forall i :: 0 <= i < n && i < |s.entryList| ==> s.Contacted(s.entryList[i]) && s.Responded(s.entryList[i])
  }

  ghost predicate Settling(nodes: seq<RoutingEntry>, net: Network, s: Search) {
    s.Valid(nodes, net) && |s.waits| == |s.requests| && Sorting.Sorted(Order(s.target), s.entryList)
  }

  /** One pass: up to the first of the closest entries that has not replied; it is dropped if it was asked,
      and asked if it was not. */
  ghost predicate IsPass(s: Search, net: Network, replicationParam: nat, r: Search, updated: bool) {
    if !updated then r == s && Settled(s, replicationParam) else
    exists k: nat ::
      && k < |s.entryList| && k < replicationParam && Settled(s, k) && s.entryList[k] in s.entryMap
      && var id := s.entryList[k];
         if s.Contacted(id) then !s.Responded(id) && r == Drop(s, k) else r == Ask(s, id, net(|s.waits|))
  }

  method SettleOne(s: Search, nodes: seq<RoutingEntry>, net: Network, replicationParam: nat)
    returns (r: Search, updated: bool)
    requires Settling(nodes, net, s)
    ensures IsPass(s, net, replicationParam, r, updated)
    ensures r.Valid(nodes, net) && |r.waits| == |r.requests| && r.target == s.target
    ensures updated ==>
      (s.Requested() < r.Requested() || (r.Requested() == s.Requested() && |r.entryList| < |s.entryList|))
  {
    hide Learned, Known, Replied, Learn;
    var k := 0;
    while k < |s.entryList| && k < replicationParam
      invariant Settled(s, k)
    {
      var id := s.entryList[k];
      if s.Contacted(id) && !s.Responded(id) {
        DropValid(s, nodes, net, k);
        return Drop(s, k), true;
      } else if !s.Contacted(id) {
        AskKeeps(nodes, net, s, id);
        return Ask(s, id, net(|s.waits|)), true;
      }
      k := k + 1;
    }
    return s, false;
  }

  /** The entries at the front of the list. */
  function Front(s: Search, n: nat): (r: seq<RoutingEntry>)
    requires forall id :: id in s.entryList ==> id in s.entryMap
  {
    var m := if n < |s.entryList| then n else |s.entryList|;
    seq(m, i requires 0 <= i < m => s.entryMap[s.entryList[i]].entry)
  }

  /** What a lookup promises, on the requests sent and on what the network said: nodes that were asked and
      replied, at most k, strictly sorted by distance, so without duplicates; and whatever was learned and
      is left out either was asked and did not reply or is further away than all k results. */
  ghost predicate IsLookupResult(s: Search, nodes: seq<RoutingEntry>, net: Network, k: nat, result: seq<RoutingEntry>) {
    && |result| <= k
    && (forall e :: e in result ==>
          && e in Learned(nodes, net, s.waits)
          && e.id in s.requests && e.id in Replied(nodes, net, s.waits))
    && (forall i, j :: 0 <= i < j < |result| ==> Dist(s.target, result[i].id) < Dist(s.target, result[j].id))
    && (forall id :: id in Known(nodes, net, s.waits) && id !in Ids(result) ==>
          || (id in s.requests && id !in Replied(nodes, net, s.waits))
          || (|result| == k && forall e :: e in result ==> Dist(s.target, e.id) < Dist(s.target, id)))
  }

  lemma StrictlySorted(s: Search, i: nat, j: nat)
    requires s.Consistent() && Sorting.Sorted(Order(s.target), s.entryList) && i < j < |s.entryList|
    ensures Dist(s.target, s.entryList[i]) < Dist(s.target, s.entryList[j])
  {
    var key := Order(s.target);
    assert key(s.entryList[i]) <= key(s.entryList[j]);
    DistInjective(s.target, s.entryList[i], s.entryList[j]);
  }

  lemma FrontEntry(s: Search, k: nat, i: nat)
    requires s.Consistent() && i < |Front(s, k)|
    ensures Front(s, k)[i].id == s.entryList[i] && s.entryList[i] in Ids(Front(s, k))
    ensures s.entryMap[s.entryList[i]].entry == Front(s, k)[i]
  {
    assert s.entryList[i] in s.entryMap;
    assert Front(s, k)[i] in Front(s, k);
  }

  lemma LeftOut(s: Search, k: nat, id: ID)
    requires s.Consistent() && Sorting.Sorted(Order(s.target), s.entryList)
    requires id in s.entryList && id !in Ids(Front(s, k))
    ensures |Front(s, k)| == k
    ensures forall e :: e in Front(s, k) ==> Dist(s.target, e.id) < Dist(s.target, id)
  {
    var r := Front(s, k);
    var j :| 0 <= j < |s.entryList| && s.entryList[j] == id;
    if j < |r| {
      FrontEntry(s, k, j);
      assert false;
    }
    forall e | e in r ensures Dist(s.target, e.id) < Dist(s.target, id) {
      var i :| 0 <= i < |r| && r[i] == e;
      FrontEntry(s, k, i);
      StrictlySorted(s, i, j);
    }
  }

  lemma FrontIsResult(s: Search, nodes: seq<RoutingEntry>, net: Network, k: nat)
    requires s.Valid(nodes, net) && Sorting.Sorted(Order(s.target), s.entryList) && Settled(s, k)
    ensures IsLookupResult(s, nodes, net, k, Front(s, k))
  {
    hide Front, Dist, Learned, Known, Replied;
    var r := Front(s, k);
    FrontLength(s, k);
    forall e | e in r
      ensures e in Learned(nodes, net, s.waits) && e.id in s.requests && e.id in Replied(nodes, net, s.waits)
    {
      var i :| 0 <= i < |r| && r[i] == e;
      FrontEntry(s, k, i);
    }
    forall i, j | 0 <= i < j < |r| ensures Dist(s.target, r[i].id) < Dist(s.target, r[j].id) {
      FrontEntry(s, k, i);
      FrontEntry(s, k, j);
      StrictlySorted(s, i, j);
    }
    forall id | id in s.entryMap && id !in Ids(r) && !(s.Contacted(id) && !s.Responded(id))
      ensures |r| == k && forall e :: e in r ==> Dist(s.target, e.id) < Dist(s.target, id)
    {
      LeftOut(s, k, id);
    }
  }

  lemma FrontLength(s: Search, k: nat)
    requires s.Consistent()
    ensures |Front(s, k)| <= k && |Front(s, k)| <= |s.entryList|
  {
  }

  method Settle(s: Search, nodes: seq<RoutingEntry>, net: Network, replicationParam: nat)
    returns (result: seq<RoutingEntry>, end: Search)
    requires Settling(nodes, net, s)
    ensures end.Valid(nodes, net) && |end.waits| == |end.requests| && end.target == s.target
    ensures IsLookupResult(end, nodes, net, replicationParam, result)
  {
    hide Learned, Known, Replied, IsLookupResult, IsPass;
    end := s;
    while true
      invariant Settling(nodes, net, end) && end.target == s.target
      decreases Remaining(end.Requested()), |end.entryList|
    {
      var next, updated := SettleOne(end, nodes, net, replicationParam);
      if !updated {
        NoPass(end, net, replicationParam, next);
        FrontIsResult(end, nodes, net, replicationParam);
        result := Front(end, replicationParam);
        return;
      }
      if end.Requested() < next.Requested() {
        RemainingDrops(end.Requested(), next.Requested());
      }
      SortedValid(next, nodes, net);
      SortKeeps(Order(next.target), next.entryList);
      end := Sorted(next);
    }
  }

  lemma NoPass(s: Search, net: Network, replicationParam: nat, r: Search)
    requires IsPass(s, net, replicationParam, r, false)
    ensures Settled(s, replicationParam)
  {
  }

  /** The initial list and map. */
  function Start(target: ID, nodes: seq<RoutingEntry>): Search {
    Learn(Search(target, [], map[], [], []), nodes)
  }

  lemma StartGathering(target: ID, nodes: seq<RoutingEntry>, net: Network)
    ensures var s := Start(target, nodes);
      Gathering(nodes, net, s) && s.requests == [] && s.waits == [] && s.target == target
  {
    LearnKeeps(Search(target, [], map[], [], []), nodes);
  }

  lemma SortedGathering(s: Search, nodes: seq<RoutingEntry>, net: Network)
    requires Gathering(nodes, net, s)
    ensures Gathering(nodes, net, Sorted(s))
    ensures Sorting.Sorted(Order(s.target), Sorted(s).entryList)
  {
    hide Learned, Known, Replied;
    SortedValid(s, nodes, net);
    SortKeeps(Order(s.target), s.entryList);
  }

  /** The search. nodes are what FindKClosest returns; end is the bookkeeping when it stops: it says who was
      asked, once each, and agrees with what the network said over one wait for each request. */
  method NodeLookUp(id: Octets, nodes: seq<RoutingEntry>, replicationParam: nat, concurrencyParam: nat, net: Network)
    returns (result: seq<RoutingEntry>, end: Option<Search>)
    requires replicationParam >= 1
    ensures |id| != DSTORE_ID_SIZE ==> result == [] && end.None?
    ensures |id| == DSTORE_ID_SIZE ==>
      && end.Some? && end.value.target == id
      && NoDuplicates(end.value.requests) && |end.value.waits| == |end.value.requests|
      && end.value.Valid(nodes, net)
      && IsLookupResult(end.value, nodes, net, replicationParam, result)
  {
    if |id| != DSTORE_ID_SIZE {
      return [], None;
    }
    hide Gathering, Learned, Known, Replied, Learn, IsLookupResult;
    var s := Start(id, nodes);
    StartGathering(id, nodes, net);
    SortedGathering(s, nodes, net);
    s := Sorted(s);
    while true
      invariant Gathering(nodes, net, s) && |s.waits| == |s.requests| && s.target == id
      decreases Remaining(s.entryMap.Keys)
    {
      var asked, j := ContactClosest(s, nodes, net, concurrencyParam);
      var gathered, updated := Gather(asked, nodes, net, j, replicationParam);
      SortedGathering(gathered, nodes, net);
      if !updated {
        var e: Search;
        GatheringSettles(Sorted(gathered), nodes, net);
        result, e := Settle(Sorted(gathered), nodes, net, replicationParam);
        return result, Some(e);
      }
      RemainingDrops(s.entryMap.Keys, gathered.entryMap.Keys);
      s := Sorted(gathered);
    }
  }

  lemma GatheringSettles(s: Search, nodes: seq<RoutingEntry>, net: Network)
    requires Gathering(nodes, net, s) && |s.waits| == |s.requests| && Sorting.Sorted(Order(s.target), s.entryList)
    ensures Settling(nodes, net, s)
  {
  }
}
