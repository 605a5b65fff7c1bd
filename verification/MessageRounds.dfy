/** gossiper/blockchainhandler.go: the round a message belongs to, counted from the confirmed messages of
    its origin that are known. */
module MessageRounds {
  import opened Basics
  import opened GossipStore

  const WORD := 0x1_0000_0000

  /** How many of the confirmed ids lie below id. */
  function Rank(ids: set<int>, id: int): nat {
    |Below(ids, id)|
  }

  function Below(ids: set<int>, id: int): set<int> {
    set k | k in ids && k < id
  }

  /** The count for an unconfirmed message compares on 32 bits. */
  function Below32(ids: set<int>, id: int): set<int> {
    set k | k in ids && k % WORD < id
  }

  /** Later confirmed messages of an origin are in later rounds. */
  lemma RankOrders(ids: set<int>, a: int, b: int)
    requires a in ids && b in ids
    ensures a < b <==> Rank(ids, a) < Rank(ids, b)
  {
    var x, y := Below(ids, a), Below(ids, b);
    if a < b {
      assert a in y && a !in x;
      SubsetSize(x, y);
    } else {
      SubsetSize(y, x);
    }
  }

  /** One more id moves exactly the messages above it up by one round. */
  lemma RankGrows(ids: set<int>, more: int, id: int)
    requires more !in ids
    ensures Rank(ids + {more}, id) == Rank(ids, id) + if more < id then 1 else 0
  {
    assert Below(ids + {more}, id) == if more < id then Below(ids, id) + {more} else Below(ids, id);
  }

  lemma NotEmpty(ids: set<int>)
    requires ids != {}
    ensures exists k :: k in ids
  {
    if forall k :: k !in ids { assert false; }
  }

  lemma Greatest(ids: set<int>) returns (m: int)
    requires ids != {}
    ensures m in ids && forall k :: k in ids ==> k <= m
    decreases |ids|
  {
    NotEmpty(ids);
    m :| m in ids;
    if ids != {m} {
      var n := Greatest(ids - {m});
      forall k | k in ids ensures k <= m || k <= n {
        assert k == m || k in ids - {m};
      }
      if n > m { m := n; }
    }
  }

  /** The confirmed messages of an origin fill the rounds from 0 on, one each. */
  lemma {:induction false} RoundsFilled(ids: set<int>, r: nat)
    requires r < |ids|
    ensures exists k :: k in ids && Rank(ids, k) == r
    decreases |ids|
  {
    var m := Greatest(ids);
    var rest := ids - {m};
    assert ids == rest + {m};
    if r == |rest| {
      assert Below(ids, m) == rest;
      assert Rank(ids, m) == r;
    } else {
      RoundsFilled(rest, r);
      var k :| k in rest && Rank(rest, k) == r;
      RankGrows(rest, m, k);
      assert k in ids && Rank(ids, k) == r;
    }
  }

  /** What the loop over the known ids counts. */
  function Earlier(ids: set<int>, id: nat, confirmedID: int): set<int> {
    if confirmedID > -1 then Below(ids, confirmedID) else Below32(ids, id)
  }

  lemma EarlierGrows(ids: set<int>, key: int, id: nat, confirmedID: int)
    requires key !in ids
    ensures |Earlier(ids + {key}, id, confirmedID)| == |Earlier(ids, id, confirmedID)|
      + if (if confirmedID > -1 then confirmedID > key else id > key % WORD) then 1 else 0
  {
    if confirmedID > -1 {
      RankGrows(ids, key, confirmedID);
    } else {
      assert Below32(ids + {key}, id) == if key % WORD < id then Below32(ids, id) + {key} else Below32(ids, id);
    }
  }

  /** sync.Map's LoadOrStore with an empty set. */
  function Present(m: map<Origin, set<int>>, origin: Origin): map<Origin, set<int>> {
    if origin in m then m else m[origin := {}]
  }

  class TlcStatus {
    var messagedIDs: map<Origin, set<int>>

    /** A negative confirmedID marks an unconfirmed message. */
    method GetMessageOriginalRound(origin: Origin, id: nat, confirmedID: int) returns (messageRound: nat)
      modifies this
      ensures messagedIDs == Present(old(messagedIDs), origin)
      ensures messageRound == |Earlier(messagedIDs[origin], id, confirmedID)|
      ensures var known := messagedIDs[origin];
        && (confirmedID >= 0 ==> messageRound == Rank(known, confirmedID))
        && (confirmedID < 0 ==> messageRound == |set k | k in known && k % WORD < id|)
    {
      messagedIDs := Present(messagedIDs, origin);
      var ids := messagedIDs[origin];
      var rest := ids;
      messageRound := 0;
      while rest != {}
        invariant rest <= ids && messagedIDs == Present(old(messagedIDs), origin)
        invariant messageRound == |Earlier(ids - rest, id, confirmedID)|
        decreases |rest|
      {
        NotEmpty(rest);
        var key :| key in rest;
        assert ids - (rest - {key}) == ids - rest + {key};
        EarlierGrows(ids - rest, key, id, confirmedID);
        if (if confirmedID > -1 then confirmedID > key else id > key % WORD) {
          messageRound := messageRound + 1;
        }
        rest := rest - {key};
      }
      assert ids - {} == ids;
    }

    /** A confirmed message is taken, and recorded, once everything its sender had seen is here. */
    method CheckForCausalProperty(h: GossipHandler, origin: Origin, vectorClock: seq<PeerStatus>, confirmedID: int)
      returns (accepted: bool)
      modifies this
      ensures accepted <==> confirmedID > -1 && !Needs(h.entries, vectorClock)
      ensures messagedIDs == if !accepted then old(messagedIDs) else
        var m := Present(old(messagedIDs), origin);
        m[origin := m[origin] + {confirmedID}]
    {
      if confirmedID > -1 {
        var needed := h.CheckIfINeedPeerStatus(vectorClock);
        if !needed {
          messagedIDs := Present(messagedIDs, origin);
          messagedIDs := messagedIDs[origin := messagedIDs[origin] + {confirmedID}];
          return true;
        }
      }
      return false;
    }
  }

  /** The round computed from the ids known so far is the message's own exactly when every smaller confirmed
      id of its origin is known: until then it is too low. */
  lemma RankSettled(known: set<int>, all: set<int>, id: int)
    requires known <= all
    ensures Rank(known, id) <= Rank(all, id)
    ensures Rank(known, id) == Rank(all, id) <==> forall k :: k in all && k < id ==> k in known
  {
    var x, y := Below(known, id), Below(all, id);
    SubsetSize(x, y);
    if forall k :: k in all && k < id ==> k in known {
      assert x == y;
    } else {
      var k :| k in all && k < id && k !in known;
      assert k in y && k !in x;
    }
  }

  /** A confirmed message is in the round after all known ones exactly when it is the newest. */
  lemma NewestIsLast(ids: set<int>, id: int)
    requires id !in ids
    ensures Rank(ids, id) == |ids| <==> forall k :: k in ids ==> k < id
  {
    SubsetSize(Below(ids, id), ids);
    if Rank(ids, id) == |ids| {
      assert Below(ids, id) == ids;
      forall k | k in ids ensures k < id { assert k in Below(ids, id); }
    } else {
      var k :| k in ids && k !in Below(ids, id);
    }
  }
}
