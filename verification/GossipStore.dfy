/** gossiper/status.go and gossiper/gossiphandler.go: stored messages and the vector clock they
    feed.

    Message numbers are uint32; the last of them is never used here, as the loop of updateStatus
    would wrap around past it. */
module GossipStore {
  import opened Basics

  const LAST: nat := 0xFFFF_FFFF

  type Id = x: nat | x < LAST

  type Origin = string

  datatype PeerStatus = PeerStatus(identifier: Origin, nextID: nat)

  type Clock = map<Origin, nat>

  /** An origin without an entry is waited for from its first message. */
  function At(entries: Clock, o: Origin): nat {
    if o in entries then entries[o] else 1
  }

  type Stored = set<(Origin, Id)>

  /** The least number from n upwards not stored for o. */
  function Least(stored: Stored, o: Origin, n: nat): (r: nat)
    requires n <= LAST
    ensures n <= r <= LAST && (r < LAST ==> (o, r) !in stored)
    ensures forall k: Id :: n <= k < r ==> (o, k) in stored
    decreases LAST - n
  {
    if n == LAST || (o, n) !in stored then n else Least(stored, o, n + 1)
  }

  /** What updateStatus leaves behind when nothing else runs. */
  function Updated(entries: Clock, stored: Stored, o: Origin, id: nat): Clock
    requires At(entries, o) <= LAST
  {
    var c := At(entries, o);
    var r := Least(stored, o, c);
    if c <= id && r > c then entries[o := r] else entries
  }

  lemma LeastUnique(stored: Stored, o: Origin, n: nat, r: nat)
    requires n <= r <= LAST && (r < LAST ==> (o, r) !in stored)
    requires forall k: Id :: n <= k < r ==> (o, k) in stored
    ensures Least(stored, o, n) == r
  {
  }

  lemma LeastStep(stored: Stored, o: Origin, n: nat)
    requires n <= LAST
    ensures n == LAST || (o, n) !in stored ==> Least(stored, o, n) == n
    ensures n < LAST && (o, n) in stored ==> Least(stored, o, n) == Least(stored, o, n + 1)
  {
  }

  // ---- status packets ----

  /** The map getPeerStatusForPeer builds from a status packet. */
  function StatusMap(want: seq<PeerStatus>): Clock {
    if want == [] then map[] else
    var last := want[|want| - 1];
    StatusMap(want[..|want| - 1])[last.identifier := last.nextID]
  }

  /** A message the other side lacks: the one it waits for, of an origin whose clock is behind. */
  predicate IsPick(entries: Clock, other: Clock, ps: PeerStatus) {
    && ps.identifier in entries
    && if ps.identifier !in other then ps.nextID == 1
       else entries[ps.identifier] > other[ps.identifier] && ps.nextID == other[ps.identifier]
  }

  predicate NothingToSend(entries: Clock, other: Clock) {
    forall o :: o in entries ==> o in other && entries[o] <= other[o]
  }

  /** The status packet of a clock, in any order. */
  ghost predicate IsStatus(want: seq<PeerStatus>, entries: Clock) {
    && (forall k :: 0 <= k < |want| ==>
          want[k].identifier in entries && entries[want[k].identifier] == want[k].nextID)
    && (forall o :: o in entries ==> exists k :: 0 <= k < |want| && want[k].identifier == o)
  }

  lemma StatusAppend(want: seq<PeerStatus>, entries: Clock, o: Origin, n: nat)
    requires StatusMap(want) == entries && IsStatus(want, entries) && o !in entries
    ensures var more := want + [PeerStatus(o, n)];
      StatusMap(more) == entries[o := n] && IsStatus(more, entries[o := n])
  {
    var more := want + [PeerStatus(o, n)];
    assert more[..|want|] == want;
    assert more[|want|].identifier == o;
    forall p | p in entries ensures exists k :: 0 <= k < |more| && more[k].identifier == p {
      var k :| 0 <= k < |want| && want[k].identifier == p;
      assert more[k].identifier == p;
    }
  }

  predicate Needs(entries: Clock, want: seq<PeerStatus>) {
    exists k :: 0 <= k < |want| &&
      (want[k].identifier !in entries || want[k].nextID > entries[want[k].identifier])
  }

  datatype Packet = Packet(origin: Origin, id: Id, text: string)

  type Storage = map<Origin, map<Id, Packet>>

  ghost predicate AllFiled(m: Storage) {
    forall o, id :: o in m && id in m[o] ==> m[o][id].origin == o && m[o][id].id == id
  }

  lemma StillFiled(m: Storage, packet: Packet)
    requires AllFiled(m)
    ensures AllFiled(m[packet.origin := (if packet.origin in m then m[packet.origin] else map[])[packet.id := packet]])
  {
  }

  function PacketAt(m: Storage, o: Origin, id: Id): Option<Packet> {
    if o in m && id in m[o] then Some(m[o][id]) else None
  }

  /** Every packet stored before is unchanged under its origin and number. */
  ghost predicate Extends(before: Storage, m: Storage) {
    forall o, id :: PacketAt(before, o, id).Some? ==> PacketAt(m, o, id) == PacketAt(before, o, id)
  }

  /** The only packet added, if any. */
  ghost predicate AddsOnly(before: Storage, m: Storage, o: Origin, id: Id, packet: Packet) {
    forall p, k :: PacketAt(m, p, k) == PacketAt(before, p, k)
      || (p == o && k == id && PacketAt(m, p, k) == Some(packet))
  }

  lemma StoredKeeps(m: Storage, o: Origin, id: Id, packet: Packet)
    requires PacketAt(m, o, id).None?
    ensures var m' := m[o := (if o in m then m[o] else map[])[id := packet]];
      Extends(m, m') && AddsOnly(m, m', o, id, packet)
  {
  }

  lemma SameExtends(m: Storage, o: Origin, id: Id, packet: Packet)
    ensures Extends(m, m) && AddsOnly(m, m, o, id, packet)
  {
  }

  class GossipHandler {
    var messageStorage: Storage
    var entries: Clock

    ghost function StoredIds(): Stored
      reads `messageStorage
    {
      set o, id | o in messageStorage && id in messageStorage[o] :: (o, id)
    }

    /** The clock of every origin is the least number not stored, and has an entry once past 1. */
    ghost predicate Valid()
      reads this
    {
      && (forall o :: o in entries ==> 2 <= entries[o] <= LAST)
      && (forall o :: At(entries, o) == Least(StoredIds(), o, 1))
    }

    /** Every packet is stored under its own origin and number. */
    ghost predicate Filed()
      reads `messageStorage
    {
      AllFiled(messageStorage)
    }

    constructor ()
      ensures Valid() && Filed() && messageStorage == map[] && entries == map[]
    {
      messageStorage, entries := map[], map[];
    }

    method UpdateStatus(origin: Origin, id: Id)
      requires At(entries, origin) <= LAST
      modifies this`entries
      ensures entries == Updated(old(entries), StoredIds(), origin, id)
    {
      hide GossipHandler.StoredIds, Least;
      ghost var stored := StoredIds();
      ghost var c := At(entries, origin);
      var maxID := 1;
      if origin in entries {
        maxID := entries[origin];
      }
      if maxID <= id {
        var found := Has(origin, maxID);
        while found
          invariant maxID <= LAST && (found <==> maxID < LAST && (origin, maxID) in stored)
          invariant c <= maxID && Least(stored, origin, c) == Least(stored, origin, maxID)
          invariant maxID == c ==> entries == old(entries)
          invariant maxID > c ==> entries == old(entries)[origin := maxID]
          decreases LAST - maxID
        {
          LeastStep(stored, origin, maxID);
          maxID := maxID + 1;
          found := Has(origin, maxID);
          entries := entries[origin := maxID];
        }
        LeastStep(stored, origin, maxID);
      }
    }

    method Has(origin: Origin, id: nat) returns (found: bool)
      ensures found <==> id < LAST && (origin, id) in StoredIds()
    {
      found := origin in messageStorage && id < LAST && id in messageStorage[origin];
    }

    /** The first message stored under a number stays, and so does every other message. */
    method StoreMessage(packet: Packet, origin: Origin, id: Id) returns (loaded: bool)
      requires Valid()
      modifies this
      ensures Valid() && loaded == ((origin, id) in old(StoredIds()))
      ensures StoredIds() == old(StoredIds()) + {(origin, id)}
      ensures entries == Updated(old(entries), StoredIds(), origin, id)
      ensures loaded ==> messageStorage == old(messageStorage)
      ensures !loaded ==> messageStorage[origin][id] == packet
      ensures Extends(old(messageStorage), messageStorage)
      ensures AddsOnly(old(messageStorage), messageStorage, origin, id, packet)
      ensures old(Filed()) && packet.origin == origin && packet.id == id ==> Filed()
    {
      hide AllFiled, Extends, AddsOnly, GossipHandler.StoredIds;
      ghost var before, was := StoredIds(), entries;
      loaded := LoadOrStore(packet, origin, id);
      UpdateStatus(origin, id);
      StoreKeepsClock(was, before, origin, id);
    }

    /** The insertion, which takes no lock. */
    method LoadOrStore(packet: Packet, origin: Origin, id: Id) returns (loaded: bool)
      modifies this`messageStorage
      ensures loaded == ((origin, id) in old(StoredIds()))
      ensures StoredIds() == old(StoredIds()) + {(origin, id)}
      ensures if loaded then messageStorage == old(messageStorage) else messageStorage[origin][id] == packet
      ensures Extends(old(messageStorage), messageStorage)
      ensures AddsOnly(old(messageStorage), messageStorage, origin, id, packet)
      ensures old(Filed()) && packet.origin == origin && packet.id == id ==> Filed()
    {
      hide AllFiled, Extends, AddsOnly;
      SameExtends(messageStorage, origin, id, packet);
      if AllFiled(messageStorage) { StillFiled(messageStorage, packet); }
      var mapValue := if origin in messageStorage then messageStorage[origin] else map[];
      loaded := id in mapValue;
      if !loaded {
        StoredKeeps(messageStorage, origin, id, packet);
        messageStorage := messageStorage[origin := mapValue[id := packet]];
      }
    }

    /** None where the code panics, on a message that is not stored. */
    method GetPacketFromPeerStatus(ps: PeerStatus) returns (p: Option<Packet>)
      ensures p.Some? <==> ps.nextID < LAST && (ps.identifier, ps.nextID) in StoredIds()
      ensures p.Some? ==> p.value == messageStorage[ps.identifier][ps.nextID]
    {
      var stored := Has(ps.identifier, ps.nextID);
      p := if stored then Some(messageStorage[ps.identifier][ps.nextID]) else None;
    }

    method CreateMyStatusPacket() returns (want: seq<PeerStatus>)
      ensures StatusMap(want) == entries
      ensures IsStatus(want, entries)
    {
      want := [];
      var left := entries.Keys;
      ghost var done: Clock := map[];
      while left != {}
        invariant left <= entries.Keys && done.Keys == entries.Keys - left
        invariant forall o :: o in done ==> done[o] == entries[o]
        invariant StatusMap(want) == done && IsStatus(want, done)
        decreases |left|
      {
        var o :| o in left;
        StatusAppend(want, done, o, entries[o]);
        want := want + [PeerStatus(o, entries[o])];
        done := done[o := entries[o]];
        left := left - {o};
      }
      assert done == entries;
    }

    /** Which of several lagging origins is picked depends on the iteration order of the map. */
    method GetPeerStatusForPeer(otherStatus: seq<PeerStatus>) returns (r: Option<PeerStatus>)
      ensures r.Some? ==> IsPick(entries, StatusMap(otherStatus), r.value)
      ensures r.None? ==> NothingToSend(entries, StatusMap(otherStatus))
    {
      var originIDMap: Clock := map[];
      for k := 0 to |otherStatus|
        invariant originIDMap == StatusMap(otherStatus[..k])
      {
        assert otherStatus[..k + 1][..k] == otherStatus[..k];
        originIDMap := originIDMap[otherStatus[k].identifier := otherStatus[k].nextID];
      }
      assert otherStatus[..|otherStatus|] == otherStatus;
      var left := entries.Keys;
      while left != {}
        invariant left <= entries.Keys
        invariant forall o :: o in entries && o !in left ==> o in originIDMap && entries[o] <= originIDMap[o]
        decreases |left|
      {
        var o :| o in left;
        if o !in originIDMap {
          return Some(PeerStatus(o, 1));
        } else if entries[o] > originIDMap[o] {
          return Some(PeerStatus(o, originIDMap[o]));
        }
        left := left - {o};
      }
      return None;
    }

    method CheckIfINeedPeerStatus(otherStatus: seq<PeerStatus>) returns (wanted: bool)
      ensures wanted <==> Needs(entries, otherStatus)
    {
      for k := 0 to |otherStatus|
        invariant !Needs(entries, otherStatus[..k])
      {
        var elem := otherStatus[k];
        if elem.identifier !in entries || elem.nextID > entries[elem.identifier] {
          return true;
        }
      }
      return false;
    }
  }

  /** Storing one more message and updating keeps every clock the least number not stored. */
  lemma StoreKeepsClock(entries: Clock, stored: Stored, origin: Origin, id: Id)
    requires forall o :: o in entries ==> 2 <= entries[o] <= LAST
    requires forall o :: At(entries, o) == Least(stored, o, 1)
    ensures var s' := stored + {(origin, id)};
      var e' := Updated(entries, s', origin, id);
      && (forall o :: o in e' ==> 2 <= e'[o] <= LAST)
      && (forall o :: At(e', o) == Least(s', o, 1))
  {
    var s' := stored + {(origin, id)};
    var e' := Updated(entries, s', origin, id);
    forall o ensures At(e', o) == Least(s', o, 1) {
      LeastUnique(s', o, 1, At(e', o));
    }
  }
}

