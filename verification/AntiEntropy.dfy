/** gossiper/rumormongering.go, handlePeerStatus: two peers exchanging status packets until they are in
    sync, with no other traffic. */
module AntiEntropy {
  import opened Basics
  import opened GossipStore

  /** A gossiper as far as the exchange goes; its name is the origin of its own messages. */
  datatype Node = Node(name: Origin, stored: Stored, entries: Clock)

  ghost predicate NodeValid(n: Node) {
    && (forall o :: o in n.entries ==> 2 <= n.entries[o] <= LAST)
    && (forall o :: At(n.entries, o) == Least(n.stored, o, 1))
  }

  /** HandleGossipMessage: messages of one's own origin are never stored. */
  function Receive(n: Node, o: Origin, id: Id): Node
    requires At(n.entries, o) <= LAST
  {
    if o == n.name then n else
    var stored := n.stored + {(o, id)};
    n.(stored := stored, entries := Updated(n.entries, stored, o, id))
  }

  /** y is about to handle the status x has sent. */
  datatype Exchange = Exchange(x: Node, y: Node)

  ghost predicate Valid(e: Exchange) {
    NodeValid(e.x) && NodeValid(e.y) && e.x.name != e.y.name
  }

  /** y wants something x's status mentions. */
  predicate Wants(y: Clock, x: Clock) {
    exists o :: o in x && (o !in y || x[o] > y[o])
  }

  lemma WantsIsNeeds(y: Clock, x: Clock, want: seq<PeerStatus>)
    requires IsStatus(want, x)
    ensures Needs(y, want) <==> Wants(y, x)
  {
    if Needs(y, want) {
      var k :| 0 <= k < |want| && (want[k].identifier !in y || want[k].nextID > y[want[k].identifier]);
      assert want[k].identifier in x;
    }
    if Wants(y, x) {
      var o :| o in x && (o !in y || x[o] > y[o]);
      var k :| 0 <= k < |want| && want[k].identifier == o;
      assert x[want[k].identifier] == want[k].nextID;
    }
  }

  /** What is sent back for a status packet; the code may panic instead. */
  datatype Emitted = Message(packet: Packet) | Status(want: seq<PeerStatus>) | InSync | Panics

  /** One turn of the event loop. It panics only on a status that waits for message 0 of some origin, which
      is not stored. */
  method HandlePeerStatus(h: GossipHandler, want: seq<PeerStatus>) returns (r: Emitted)
    requires h.Valid()
    ensures r.Message? ==> exists ps ::
      && IsPick(h.entries, StatusMap(want), ps) && ps.nextID < LAST && (ps.identifier, ps.nextID) in h.StoredIds()
      && r.packet == h.messageStorage[ps.identifier][ps.nextID]
    ensures r.Status? ==>
      && NothingToSend(h.entries, StatusMap(want)) && Needs(h.entries, want)
      && IsStatus(r.want, h.entries) && StatusMap(r.want) == h.entries
    ensures r.InSync? ==> NothingToSend(h.entries, StatusMap(want)) && !Needs(h.entries, want)
    ensures r.Panics? ==> exists ps ::
      IsPick(h.entries, StatusMap(want), ps) && ps.nextID == 0 && (ps.identifier, 0) !in h.StoredIds()
    ensures (forall k :: 0 <= k < |want| ==> want[k].nextID >= 1) ==> !r.Panics?
  {
    var toSend := h.GetPeerStatusForPeer(want);
    if toSend.Some? {
      var ps := toSend.value;
      PickStored(h.entries, h.StoredIds(), want, ps);
      var packetToSend := h.GetPacketFromPeerStatus(ps);
      return if packetToSend.Some? then Message(packetToSend.value) else Panics;
    }
    var wanted := h.CheckIfINeedPeerStatus(want);
    if wanted {
      var statusToSend := h.CreateMyStatusPacket();
      return Status(statusToSend);
    }
    return InSync;
  }

  lemma {:induction false} StatusIds(want: seq<PeerStatus>, o: Origin)
    requires o in StatusMap(want) && forall k :: 0 <= k < |want| ==> want[k].nextID >= 1
    ensures StatusMap(want)[o] >= 1
  {
    if o != want[|want| - 1].identifier {
      StatusIds(want[..|want| - 1], o);
    }
  }

  lemma PickStored(entries: Clock, stored: Stored, want: seq<PeerStatus>, ps: PeerStatus)
    requires forall o :: o in entries ==> 2 <= entries[o] <= LAST
    requires forall o :: At(entries, o) == Least(stored, o, 1)
    requires IsPick(entries, StatusMap(want), ps)
    ensures ps.nextID < LAST && (ps.nextID >= 1 ==> (ps.identifier, ps.nextID) in stored)
    ensures (forall k :: 0 <= k < |want| ==> want[k].nextID >= 1) ==> ps.nextID >= 1
  {
    if ps.identifier in StatusMap(want) && forall k :: 0 <= k < |want| ==> want[k].nextID >= 1 {
      StatusIds(want, ps.identifier);
    }
    assert At(entries, ps.identifier) == Least(stored, ps.identifier, 1);
  }

  /** Handling a status: y sends x a message it lacks, and x, having handled it, sends its new status;
      or y, lacking something itself, answers with its own status. Which message is sent is not
      determined. */
  ghost predicate Sends(e: Exchange, e': Exchange, ps: PeerStatus) {
    && IsPick(e.y.entries, e.x.entries, ps)
    && ps.nextID < LAST && At(e.x.entries, ps.identifier) <= LAST
    && e' == e.(x := Receive(e.x, ps.identifier, ps.nextID))
  }

  ghost predicate Swaps(e: Exchange, e': Exchange) {
    NothingToSend(e.y.entries, e.x.entries) && Wants(e.y.entries, e.x.entries) && e' == Exchange(e.y, e.x)
  }

  ghost predicate Step(e: Exchange, e': Exchange) {
    (exists ps :: Sends(e, e', ps)) || Swaps(e, e')
  }

  ghost predicate CanStep(e: Exchange) {
    exists e' :: Step(e, e')
  }

  /** Neither branch applies: the peers are in sync. */
  ghost predicate Done(e: Exchange) {
    NothingToSend(e.y.entries, e.x.entries) && !Wants(e.y.entries, e.x.entries)
  }

  ghost function Union(e: Exchange): Stored {
    e.x.stored + e.y.stored
  }

  /** No peer could use a message of its own that only the other still holds. */
  ghost predicate OwnComplete(e: Exchange) {
    && At(e.x.entries, e.x.name) == Least(Union(e), e.x.name, 1)
    && At(e.y.entries, e.y.name) == Least(Union(e), e.y.name, 1)
  }

  // ---- least missing numbers ----

  lemma LeastMonotone(s: Stored, t: Stored, o: Origin)
    requires s <= t
    ensures Least(s, o, 1) <= Least(t, o, 1)
  {
  }

  /** If both wait for the same number, that is what the union of their stores lacks. */
  lemma LeastOfUnion(s: Stored, t: Stored, o: Origin)
    requires Least(s, o, 1) == Least(t, o, 1)
    ensures Least(s + t, o, 1) == Least(s, o, 1)
  {
    LeastUnique(s + t, o, 1, Least(s, o, 1));
  }

  // ---- one message ----

  /** A picked message is the one the receiver waits for: the sender has it, the receiver has not. */
  lemma PickedIsMissing(e: Exchange, ps: PeerStatus)
    requires Valid(e) && IsPick(e.y.entries, e.x.entries, ps)
    ensures 1 <= ps.nextID < LAST && ps.nextID == At(e.x.entries, ps.identifier)
    ensures (ps.identifier, ps.nextID) in e.y.stored && (ps.identifier, ps.nextID) !in e.x.stored
  {
    var o := ps.identifier;
    assert At(e.x.entries, o) == Least(e.x.stored, o, 1);
    assert At(e.y.entries, o) == Least(e.y.stored, o, 1);
  }

  /** It raises the receiver's clock, past whatever gap it fills, exactly when it is not a message of
      the receiver's own. */
  lemma MessageRaisesClock(e: Exchange, ps: PeerStatus)
    requires Valid(e) && IsPick(e.y.entries, e.x.entries, ps)
    ensures 1 <= ps.nextID < LAST && At(e.x.entries, ps.identifier) <= LAST
    ensures At(Receive(e.x, ps.identifier, ps.nextID).entries, ps.identifier) > At(e.x.entries, ps.identifier)
      <==> ps.identifier != e.x.name
  {
    PickedIsMissing(e, ps);
    var x, o := e.x, ps.identifier;
    if o != x.name {
      var s := x.stored + {(o, ps.nextID as Id)};
      LeastStep(s, o, ps.nextID);
      assert Least(s, o, ps.nextID) > ps.nextID;
    }
  }

  lemma ReceiveValid(n: Node, o: Origin, id: Id)
    requires NodeValid(n)
    ensures At(n.entries, o) <= LAST && NodeValid(Receive(n, o, id))
  {
    assert At(n.entries, o) == Least(n.stored, o, 1);
    StoreKeepsClock(n.entries, n.stored, o, id);
  }

  // ---- the exchange ends ----

  /** Messages some peer still lacks. */
  ghost function Missing(e: Exchange): nat {
    |Union(e) - e.x.stored| + |Union(e) - e.y.stored|
  }

  /** A bound on the packets to come: every message costs itself and a status, every change of roles a
      status, and a change of roles is followed by a message. */
  ghost function Budget(e: Exchange): nat {
    3 * Missing(e) + if NothingToSend(e.y.entries, e.x.entries) then 1 else 0
  }

  ghost function Cost(e: Exchange, e': Exchange): nat {
    if Swaps(e, e') then 1 else 2
  }

  lemma NothingToSendIff(e: Exchange)
    requires Valid(e)
    ensures NothingToSend(e.y.entries, e.x.entries) <==>
      !exists ps :: IsPick(e.y.entries, e.x.entries, ps)
  {
    if !NothingToSend(e.y.entries, e.x.entries) {
      var o :| o in e.y.entries && (o !in e.x.entries || e.y.entries[o] > e.x.entries[o]);
      assert IsPick(e.y.entries, e.x.entries, PeerStatus(o, if o in e.x.entries then e.x.entries[o] else 1));
    }
  }

  /** With its own messages complete, the receiver is never sent one of them. */
  lemma NeverOwn(e: Exchange, ps: PeerStatus)
    requires Valid(e) && OwnComplete(e) && IsPick(e.y.entries, e.x.entries, ps)
    ensures ps.identifier != e.x.name
  {
    PickedIsMissing(e, ps);
    LeastMonotone(e.y.stored, Union(e), e.x.name);
    assert At(e.y.entries, ps.identifier) == Least(e.y.stored, ps.identifier, 1);
  }

  lemma SetShrinks<T>(u: set<T>, s: set<T>, x: T)
    requires x in u && x !in s
    ensures |u - (s + {x})| == |u - s| - 1
  {
    assert u - s == (u - (s + {x})) + {x};
  }

  lemma SendKeeps(e: Exchange, e': Exchange, ps: PeerStatus)
    requires Valid(e) && OwnComplete(e) && Sends(e, e', ps)
    ensures Valid(e') && OwnComplete(e') && Union(e') == Union(e) && Missing(e') == Missing(e) - 1
  {
    NeverOwn(e, ps);
    PickedIsMissing(e, ps);
    ReceiveValid(e.x, ps.identifier, ps.nextID);
    SetShrinks(Union(e), e.x.stored, (ps.identifier, ps.nextID as Id));
    assert e'.x.stored == e.x.stored + {(ps.identifier, ps.nextID as Id)};
    assert Union(e') == Union(e);
  }

  lemma SwapKeeps(e: Exchange, e': Exchange)
    requires Valid(e) && OwnComplete(e) && Swaps(e, e')
    ensures Valid(e') && OwnComplete(e') && Union(e') == Union(e) && Missing(e') == Missing(e)
    ensures !NothingToSend(e'.y.entries, e'.x.entries)
  {
    assert Union(e') == Union(e);
  }

  /** Every step keeps what is needed, loses no message, and is paid for by the budget. */
  lemma StepKeeps(e: Exchange, e': Exchange)
    requires Valid(e) && OwnComplete(e) && Step(e, e')
    ensures Valid(e') && OwnComplete(e') && Union(e') == Union(e)
    ensures Cost(e, e') + Budget(e') <= Budget(e)
  {
    if Swaps(e, e') {
      SwapKeeps(e, e');
    } else {
      var ps :| Sends(e, e', ps);
      SendKeeps(e, e', ps);
    }
  }

  /** An exchange can only stop when it is done. */
  lemma StopsOnlyInSync(e: Exchange)
    requires Valid(e)
    ensures Done(e) <==> !CanStep(e)
  {
    NothingToSendIff(e);
    if !NothingToSend(e.y.entries, e.x.entries) {
      var ps :| IsPick(e.y.entries, e.x.entries, ps);
      PickedIsMissing(e, ps);
      assert At(e.x.entries, ps.identifier) == Least(e.x.stored, ps.identifier, 1);
      assert Sends(e, e.(x := Receive(e.x, ps.identifier, ps.nextID)), ps);
      assert Step(e, e.(x := Receive(e.x, ps.identifier, ps.nextID)));
    } else if Wants(e.y.entries, e.x.entries) {
      assert Step(e, Exchange(e.y, e.x));
    }
  }

  /** Done means in sync: equal clocks, each the least number missing from both stores together. */
  lemma DoneMeansInSync(e: Exchange)
    requires Valid(e) && Done(e)
    ensures e.x.entries == e.y.entries
    ensures forall o :: At(e.x.entries, o) == At(e.y.entries, o) == Least(Union(e), o, 1)
  {
    forall o ensures o in e.x.entries <==> o in e.y.entries {}
    forall o | o in e.x.entries ensures e.x.entries[o] == e.y.entries[o] {}
    forall o ensures At(e.x.entries, o) == At(e.y.entries, o) == Least(Union(e), o, 1) {
      LeastOfUnion(e.x.stored, e.y.stored, o);
    }
  }

  // ---- runs ----

  ghost predicate IsRun(run: seq<Exchange>) {
    run != [] && forall k :: 0 <= k < |run| - 1 ==> Step(run[k], run[k + 1])
  }

  /** The packets sent over a run, not counting the first status. */
  ghost function Packets(run: seq<Exchange>): nat
    requires run != []
  {
    if |run| == 1 then 0 else Cost(run[0], run[1]) + Packets(run[1..])
  }

  lemma {:induction false} RunBudget(run: seq<Exchange>)
    requires IsRun(run) && Valid(run[0]) && OwnComplete(run[0])
    ensures var last := run[|run| - 1];
      && Valid(last) && OwnComplete(last) && Union(last) == Union(run[0])
      && Packets(run) + Budget(last) <= Budget(run[0])
      && |run| - 1 <= Packets(run)
  {
    if |run| > 1 {
      assert Step(run[0], run[1]);
      StepKeeps(run[0], run[1]);
      forall k | 0 <= k < |run[1..]| - 1 ensures Step(run[1..][k], run[1..][k + 1]) {
        assert Step(run[k + 1], run[k + 1 + 1]);
      }
      RunBudget(run[1..]);
    }
  }

  /** Every exchange between peers complete in their own messages stops after at most three packets per
      missing message and one more, and wherever it stops both clocks are, for every origin, the least
      number missing from what the two had together at the start. */
  lemma ExchangeSyncs(run: seq<Exchange>)
    requires IsRun(run) && Valid(run[0]) && OwnComplete(run[0])
    ensures |run| - 1 <= Packets(run) <= 3 * Missing(run[0]) + 1
    ensures var last := run[|run| - 1];
      !CanStep(last) ==>
        last.x.entries == last.y.entries
        && forall o :: At(last.x.entries, o) == Least(Union(run[0]), o, 1)
  {
    var last := run[|run| - 1];
    RunBudget(run);
    StopsOnlyInSync(last);
    if Done(last) {
      DoneMeansInSync(last);
    }
  }

  // ---- and only those ----

  /** Some peer lacks a message of its own that would raise its clock. */
  ghost predicate OwnGap(n: Node, u: Stored) {
    At(n.entries, n.name) < Least(u, n.name, 1)
  }

  lemma IncompleteHasGap(e: Exchange)
    requires Valid(e)
    ensures OwnComplete(e) <==> !OwnGap(e.x, Union(e)) && !OwnGap(e.y, Union(e))
  {
    LeastMonotone(e.x.stored, Union(e), e.x.name);
    LeastMonotone(e.y.stored, Union(e), e.y.name);
  }

  /** A gap in a peer's own messages is never filled. */
  lemma GapStays(e: Exchange, e': Exchange)
    requires Valid(e) && Step(e, e')
    ensures Valid(e') && Union(e') == Union(e)
    ensures OwnGap(e.x, Union(e)) || OwnGap(e.y, Union(e)) ==> OwnGap(e'.x, Union(e')) || OwnGap(e'.y, Union(e'))
  {
    if !Swaps(e, e') {
      var ps :| Sends(e, e', ps);
      PickedIsMissing(e, ps);
      ReceiveValid(e.x, ps.identifier, ps.nextID);
      assert Union(e') == Union(e);
    } else {
      assert Union(e') == Union(e);
    }
  }

  lemma {:induction false} GapForever(run: seq<Exchange>)
    requires IsRun(run) && Valid(run[0])
    requires OwnGap(run[0].x, Union(run[0])) || OwnGap(run[0].y, Union(run[0]))
    ensures var last := run[|run| - 1];
      Valid(last) && (OwnGap(last.x, Union(last)) || OwnGap(last.y, Union(last)))
  {
    if |run| > 1 {
      assert Step(run[0], run[1]);
      GapStays(run[0], run[1]);
      forall k | 0 <= k < |run[1..]| - 1 ensures Step(run[1..][k], run[1..][k + 1]) {
        assert Step(run[k + 1], run[k + 1 + 1]);
      }
      GapForever(run[1..]);
    }
  }

  /** If a peer is not complete in its own messages, the exchange never stops: each state it reaches has
      a next one. */
  lemma IncompleteNeverSyncs(run: seq<Exchange>)
    requires IsRun(run) && Valid(run[0]) && !OwnComplete(run[0])
    ensures CanStep(run[|run| - 1])
  {
    var last := run[|run| - 1];
    IncompleteHasGap(run[0]);
    GapForever(run);
    StopsOnlyInSync(last);
    if Done(last) {
      DoneMeansInSync(last);
    }
  }

  // ---- on two handlers ----

  ghost function NodeOf(h: GossipHandler, name: Origin): Node
    reads h
  {
    Node(name, h.StoredIds(), h.entries)
  }

  /** The answer to a status is a step of the exchange, or there is none because the peers are in sync. */
  ghost predicate IsAnswer(e: Exchange, r: Emitted) {
    match r
    case Message(p) =>
      && At(e.x.entries, p.origin) <= LAST
      && Sends(e, e.(x := Receive(e.x, p.origin, p.id)), PeerStatus(p.origin, p.id))
    case Status(want) => Swaps(e, Exchange(e.y, e.x)) && IsStatus(want, e.y.entries)
    case InSync => Done(e)
    case Panics => false
  }

  /** handlePeerStatus on y, for the status of x. */
  method Answer(y: GossipHandler, yName: Origin, want: seq<PeerStatus>, ghost x: Node) returns (r: Emitted)
    requires y.Valid() && y.Filed() && Valid(Exchange(x, NodeOf(y, yName)))
    requires IsStatus(want, x.entries) && StatusMap(want) == x.entries
    ensures IsAnswer(Exchange(x, NodeOf(y, yName)), r)
    ensures r.Message? ==> PacketAt(y.messageStorage, r.packet.origin, r.packet.id) == Some(r.packet)
    ensures r.Status? ==> StatusMap(r.want) == y.entries
  {
    hide GossipHandler.Valid, IsPick;
    ghost var e := Exchange(x, NodeOf(y, yName));
    WantsIsNeeds(y.entries, x.entries, want);
    r := HandlePeerStatus(y, want);
    if r.Message? {
      ghost var ps :|
        && IsPick(y.entries, x.entries, ps) && ps.nextID < LAST && (ps.identifier, ps.nextID) in y.StoredIds()
        && r.packet == y.messageStorage[ps.identifier][ps.nextID];
      PickedIsMissing(e, ps);
      FiledAt(y, ps);
    }
  }

  lemma FiledAt(h: GossipHandler, ps: PeerStatus)
    requires h.Filed() && ps.nextID < LAST && (ps.identifier, ps.nextID) in h.StoredIds()
    ensures PeerStatus(h.messageStorage[ps.identifier][ps.nextID].origin,
                       h.messageStorage[ps.identifier][ps.nextID].id) == ps
  {
  }

  /** HandleGossipMessage: the message is stored unless it is our own, and our status is sent back. */
  method HandleGossipMessage(h: GossipHandler, name: Origin, packet: Packet) returns (want: seq<PeerStatus>)
    requires h.Valid() && h.Filed()
    modifies h
    ensures h.Valid() && h.Filed()
    ensures At(old(h.entries), packet.origin) <= LAST
    ensures NodeOf(h, name) == Receive(old(NodeOf(h, name)), packet.origin, packet.id)
    ensures IsStatus(want, h.entries) && StatusMap(want) == h.entries
    ensures Extends(old(h.messageStorage), h.messageStorage)
    ensures AddsOnly(old(h.messageStorage), h.messageStorage, packet.origin, packet.id, packet)
    ensures packet.origin == name ==> h.messageStorage == old(h.messageStorage)
  {
    hide Extends, AddsOnly;
    SameExtends(h.messageStorage, packet.origin, packet.id, packet);
    ClockBound(h.entries, packet.origin);
    if packet.origin != name {
      var loaded := h.StoreMessage(packet, packet.origin, packet.id);
    }
    want := h.CreateMyStatusPacket();
  }

  lemma HandlerNode(h: GossipHandler, name: Origin)
    requires h.Valid()
    ensures NodeValid(NodeOf(h, name))
  {
  }

  lemma ClockBound(entries: Clock, o: Origin)
    requires forall p :: p in entries ==> 2 <= entries[p] <= LAST
    ensures At(entries, o) <= LAST
  {
  }

  /** Every packet of m is one of x or of y, under the same origin and number. */
  ghost predicate Among(m: Storage, x: Storage, y: Storage) {
    forall o, id :: PacketAt(m, o, id).Some? ==>
      PacketAt(m, o, id) == PacketAt(x, o, id) || PacketAt(m, o, id) == PacketAt(y, o, id)
  }

  /** What the receiver of a packet of the sender holds was held at the start, and nothing of it is gone. */
  lemma PacketsKept(start: Storage, x: Storage, y: Storage, m: Storage, m': Storage, from: Storage, p: Packet)
    requires Extends(start, m) && Among(m, x, y) && Among(from, x, y)
    requires PacketAt(from, p.origin, p.id) == Some(p)
    requires Extends(m, m') && AddsOnly(m, m', p.origin, p.id, p)
    ensures Extends(start, m') && Among(m', x, y)
  {
    forall o, id | PacketAt(m', o, id).Some?
      ensures PacketAt(m', o, id) == PacketAt(x, o, id) || PacketAt(m', o, id) == PacketAt(y, o, id) {
      if PacketAt(m', o, id) != PacketAt(m, o, id) {
        assert PacketAt(m', o, id) == PacketAt(from, o, id);
      }
    }
    forall o, id | PacketAt(start, o, id).Some? ensures PacketAt(m', o, id) == PacketAt(start, o, id) {
      assert PacketAt(m, o, id) == PacketAt(start, o, id);
    }
  }

  lemma StartKept(x: Storage, y: Storage)
    ensures Extends(x, x) && Among(x, x, y) && Among(y, x, y)
  {
  }

  /** Two handlers exchange packets, from a first status of x, until they are in sync. With each peer
      complete in its own messages this ends, and then both clocks are the least number missing from what
      the two had together. Every packet of either stays, and every packet either holds in the end is one
      that one of them held at the start. */
  method Synchronise(x: GossipHandler, xName: Origin, y: GossipHandler, yName: Origin)
    requires x != y && x.Valid() && x.Filed() && y.Valid() && y.Filed() && xName != yName
    requires OwnComplete(Exchange(NodeOf(x, xName), NodeOf(y, yName)))
    modifies x, y
    ensures x.Valid() && x.Filed() && y.Valid() && y.Filed()
    ensures x.StoredIds() + y.StoredIds() == old(x.StoredIds() + y.StoredIds())
    ensures x.entries == y.entries
    ensures forall o :: At(x.entries, o) == Least(old(x.StoredIds() + y.StoredIds()), o, 1)
    ensures Extends(old(x.messageStorage), x.messageStorage) && Extends(old(y.messageStorage), y.messageStorage)
    ensures Among(x.messageStorage, old(x.messageStorage), old(y.messageStorage))
    ensures Among(y.messageStorage, old(x.messageStorage), old(y.messageStorage))
  {
    hide Extends, Among, AddsOnly, PacketAt;
    hide GossipHandler.Valid, GossipHandler.Filed, GossipHandler.StoredIds, OwnComplete, Budget, Sends, Swaps, Done;
    HandlerNode(x, xName);
    HandlerNode(y, yName);
    var want := x.CreateMyStatusPacket();
    ghost var all := x.StoredIds() + y.StoredIds();
    ghost var xs, ys := x.messageStorage, y.messageStorage;
    StartKept(xs, ys);
    StartKept(ys, xs);
    var a, b := x, y;
    var aName, bName := xName, yName;
    while true
      invariant (a == x && b == y) || (a == y && b == x)
      invariant a.Valid() && a.Filed() && b.Valid() && b.Filed()
      invariant Valid(Exchange(NodeOf(a, aName), NodeOf(b, bName)))
      invariant OwnComplete(Exchange(NodeOf(a, aName), NodeOf(b, bName)))
      invariant a.StoredIds() + b.StoredIds() == all
      invariant Extends(xs, x.messageStorage) && Extends(ys, y.messageStorage)
      invariant Among(x.messageStorage, xs, ys) && Among(y.messageStorage, xs, ys)
      invariant IsStatus(want, a.entries) && StatusMap(want) == a.entries
      decreases Budget(Exchange(NodeOf(a, aName), NodeOf(b, bName)))
    {
      ghost var e := Exchange(NodeOf(a, aName), NodeOf(b, bName));
      var r := Answer(b, bName, want, e.x);
      match r {
        case Message(p) =>
          ghost var m := a.messageStorage;
          want := HandleGossipMessage(a, aName, p);
          PacketsKept(if a == x then xs else ys, xs, ys, m, a.messageStorage, b.messageStorage, p);
          AnswerKeeps(e, r, Exchange(NodeOf(a, aName), NodeOf(b, bName)));
        case Status(w) =>
          want := w;
          a, b := b, a;
          aName, bName := bName, aName;
          AnswerKeeps(e, r, Exchange(NodeOf(a, aName), NodeOf(b, bName)));
        case InSync =>
          DoneMeansInSync(e);
          return;
        case Panics =>
          assert false;
      }
    }
  }

  lemma AnswerKeeps(e: Exchange, r: Emitted, e': Exchange)
    requires Valid(e) && OwnComplete(e) && IsAnswer(e, r)
    requires r.Message? ==> e' == e.(x := Receive(e.x, r.packet.origin, r.packet.id))
    requires r.Status? ==> e' == Exchange(e.y, e.x)
    requires !r.InSync?
    ensures Step(e, e') && Valid(e') && OwnComplete(e') && Union(e') == Union(e) && Budget(e') < Budget(e)
  {
    hide Sends, Swaps, OwnComplete, Budget, Valid, Union;
    StepKeeps(e, e');
  }
}
