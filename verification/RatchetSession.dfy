/** Two ratchets exchanging messages over a network that delays, drops and reorders them.

    Ratchet keys are numbered in the order in which they enter the root chain: key 0 is the
    responder's first key, key 1 the initiator's, and so on alternately. A peer at level l has made
    l root-key steps and holds key l; chain c is keyed by keys c and c + 1, is sent on at level
    c + 1 and received on at level c + 2. */
module RatchetSession {
  import opened Basics
  import opened Bytes
  import opened PointCodec
  import opened Primitives
  import opened Aead
  import opened Ratchet

  /** The keys are those GenerateDH returns over the whole run. */
  datatype Session = Session(s: Suite, sk: Bytes, keys: nat -> PrivateKey)

  // ---- the key schedule ----

  function Root(z: Session, l: nat): Bytes {
    if l == 0 then z.sk else RootStep(z, l - 1, Root(z, l - 1)).0
  }

  function RootStep(z: Session, c: nat, rk: Bytes): (Bytes, Bytes) {
    z.s.kdfRK(rk, z.s.DH(z.keys(c), z.s.pub(z.keys(c + 1))))
  }

  function ChainKey(z: Session, c: nat, i: nat): Bytes {
    if i == 0 then RootStep(z, c, Root(z, c)).1 else z.s.hmac([0x32], ChainKey(z, c, i - 1))
  }

  function MessageKey(z: Session, c: nat, i: nat): Bytes {
    z.s.hmac([0x31], ChainKey(z, c, i))
  }

  /** What names a remote ratchet key among the skipped keys. */
  function Fingerprint(z: Session, l: nat): Bytes {
    z.s.sha256(z.s.PubBytes(z.keys(l)))
  }

  function Index(z: Session, c: nat, i: nat): SkipKey {
    (Fingerprint(z, c + 1), i)
  }

  /** The first n ratchet keys have different fingerprints. */
  ghost predicate Distinct(z: Session, n: nat) {
    forall i, j :: 0 <= i < j < n ==> Fingerprint(z, i) != Fingerprint(z, j)
  }

  // ---- the state of both peers and of the network ----

  datatype Sent = Sent(message: RatchetMessage, plaintext: Bytes)

  /** Per chain: the messages sent on it, and how many of its keys the receiver has derived. */
  datatype Wire = Wire(sent: seq<seq<Sent>>, derived: seq<nat>, delivered: set<(nat, nat)>)

  datatype Peer = Peer(st: State, level: nat)

  datatype Delivery = Delivery(chain: nat, number: nat, plaintext: Option<Bytes>)

  /** peers[0] receives the even chains, peers[1] the odd ones. */
  datatype System = System(w: Wire, peers: seq<Peer>, log: seq<Delivery>, crashed: bool)

  datatype Action =
    | Send(party: nat, plaintext: Bytes, origin: Bytes, destination: Bytes, ad: Bytes)
    | Deliver(chain: nat, number: nat)

  function Max(a: nat, b: nat): nat {
    if a < b then b else a
  }

  /** The header promises no message of the old chain beyond the keys kept from it: the code keeps
      those below the number of the new message, not below header.pn. */
  predicate OnTime(st: State, header: RatchetHeader) {
    st.ckr.Some? ==> header.pn <= Max(st.nr, header.n)
  }

  ghost predicate FreshKey(z: Session, l: nat) {
    forall j :: 0 <= j < l ==> Fingerprint(z, j) != Fingerprint(z, l)
  }

  /** Two peers, and the bookkeeping of every chain. */
  ghost predicate Ready(y: System) {
    |y.peers| == 2 && |y.w.derived| == |y.w.sent|
  }

  ghost predicate InFlight(y: System, c: nat, i: nat) {
    c < |y.w.sent| && i < |y.w.sent[c]| && (c, i) !in y.w.delivered
  }

  /** An old message whose key was not kept when its chain was closed. */
  ghost predicate Lost(y: System, c: nat, i: nat)
    requires Ready(y) && c < |y.w.sent|
  {
    c + 2 < y.peers[c % 2].level && y.w.derived[c] <= i
  }

  /** The network loses what it likes; a message is delivered as it was sent and at most once. */
  ghost predicate Possible(y: System, a: Action)
    requires Ready(y)
  {
    match a
    case Send(party, _, _, _, _) => party < 2 && y.peers[party].st.cks.Some?
    case Deliver(c, i) => InFlight(y, c, i)
  }

  /** Moreover its key is not lost. Each new ratchet key has a new fingerprint. */
  ghost predicate Enabled(z: Session, y: System, a: Action)
    requires Ready(y)
  {
    && Possible(y, a)
    && (a.Deliver? ==>
          && !Lost(y, a.chain, a.number)
          && (a.chain == y.peers[a.chain % 2].level ==> FreshKey(z, a.chain + 2)))
  }

  /** The bookkeeping of a delivery; it does not influence the peers. */
  ghost function Receipt(w: Wire, x: Peer, c: nat, i: nat, stored: bool): Wire
    requires |w.derived| == |w.sent| && c < |w.sent|
  {
    var w1 := if c == x.level then NewChain(CloseChain(w, x.level, x.st.nr, i)) else w;
    var w2 := if stored then w1 else w1.(derived := w1.derived[c := i + 1]);
    w2.(delivered := w2.delivered + {(c, i)})
  }

  ghost function CloseChain(w: Wire, level: nat, nr: nat, n: nat): (r: Wire)
    ensures |r.derived| == |w.derived| && r.sent == w.sent
  {
    if 2 <= level <= |w.derived| + 1 then w.(derived := w.derived[level - 2 := Max(nr, n)]) else w
  }

  ghost function NewChain(w: Wire): Wire {
    w.(derived := w.derived + [0], sent := w.sent + [[]])
  }

  ghost function Execute(z: Session, y: System, a: Action): System
    requires z.s.Lawful() && Ready(y) && Possible(y, a)
  {
    match a
    case Send(party, plaintext, origin, destination, ad) =>
      var x := y.peers[party];
      var (st, m) := Encrypt(z.s, x.st, plaintext, origin, destination, ad);
      if !(1 <= x.level <= |y.w.sent|) then y.(crashed := true) else
      var sent := y.w.sent[x.level - 1 := y.w.sent[x.level - 1] + [Sent(m, plaintext)]];
      y.(peers := y.peers[party := x.(st := st)], w := y.w.(sent := sent))
    case Deliver(c, i) =>
      var x := y.peers[c % 2];
      var m := y.w.sent[c][i].message;
      var newKey := z.keys(x.level + 2);
      if !(x.st.Valid() && CanDecrypt(z.s, x.st, m.header, m.message, newKey)) then y.(crashed := true) else
      var (st, r) := Decrypt(z.s, x.st, m.header, m.message, newKey);
      var stored := StoredKey(z.s, m.header) in x.st.skipped;
      System(Receipt(y.w, x, c, i, stored),
             y.peers[c % 2 := Peer(st, if c == x.level then x.level + 2 else x.level)],
             y.log + [Delivery(c, i, r)], false)
  }

  // ---- the invariant ----

  ghost predicate SentWell(z: Session, w: Wire, c: nat, i: nat)
    requires z.s.Lawful() && c < |w.sent| && i < |w.sent[c]|
  {
    var e := w.sent[c][i];
    && e.message.header.pubKey == z.s.PubBytes(z.keys(c + 1))
    && e.message.header.n == i
    && e.message.header.pn == (if c >= 2 then |w.sent[c - 2]| else 0)
    && e.message.message == EncryptAEAD(z.s, MessageKey(z, c, i), e.plaintext, Concat(z.s, [], e.message.header))
  }

  ghost predicate WireInv(z: Session, w: Wire)
    requires z.s.Lawful()
  {
    && |w.derived| == |w.sent|
    && (forall c, i :: 0 <= c < |w.sent| && 0 <= i < |w.sent[c]| ==> SentWell(z, w, c, i))
    && (forall c, i :: (c, i) in w.delivered ==> c < |w.derived| && i < w.derived[c])
  }

  /** Key i of chain c is derived at a receiver of this level and its message is still out. */
  predicate Pending(w: Wire, level: nat, c: nat, i: nat) {
    c < |w.derived| && c + 2 <= level && c % 2 == level % 2 && i < w.derived[c] && (c, i) !in w.delivered
  }

  /** The skipped keys are exactly those of the pending messages, and each is the sender's key. */
  ghost predicate SkippedExactly(z: Session, w: Wire, level: nat, skipped: map<SkipKey, Bytes>) {
    && (forall c: nat, i: nat :: Pending(w, level, c, i) ==>
          Index(z, c, i) in skipped && skipped[Index(z, c, i)] == MessageKey(z, c, i))
    && (forall k :: k in skipped ==> exists c: nat, i: nat :: Pending(w, level, c, i) && Index(z, c, i) == k)
  }

  ghost predicate PeerInv(z: Session, w: Wire, x: Peer)
    requires |w.derived| == |w.sent|
  {
    var st, l := x.st, x.level;
    && l <= |w.sent|
    && st.dhs == z.keys(l)
    && st.rk == Root(z, l)
    && st.dhr == (if l == 0 then None else Some(z.s.pub(z.keys(l - 1))))
    && st.ns == (if l == 0 then 0 else |w.sent[l - 1]|)
    && st.cks == (if l == 0 then None else Some(ChainKey(z, l - 1, st.ns)))
    && st.nr == (if l < 2 then 0 else w.derived[l - 2])
    && st.ckr == (if l < 2 then None else Some(ChainKey(z, l - 2, st.nr)))
    && st.pn == (if l < 3 then 0 else |w.sent[l - 3]|)
    && SkippedExactly(z, w, l, st.skipped)
  }

  /** Chains not yet received on have no derived key. */
  ghost predicate ChainsInv(w: Wire, peers: seq<Peer>)
    requires |peers| == 2 && |w.derived| == |w.sent|
  {
    forall c :: 0 <= c < |w.sent| ==> peers[c % 2].level < c + 2 ==> w.derived[c] == 0
  }

  ghost predicate DeliveredAsSent(y: System) {
    forall k :: 0 <= k < |y.log| ==>
      var e := y.log[k];
      && e.chain < |y.w.sent| && e.number < |y.w.sent[e.chain]|
      && e.plaintext == Some(y.w.sent[e.chain][e.number].plaintext)
  }

  ghost predicate Inv(z: Session, y: System)
    requires z.s.Lawful()
  {
    && WireInv(z, y.w)
    && |y.peers| == 2
    && y.peers[0].level % 2 == 0 && y.peers[1].level % 2 == 1
    // one peer is exactly one root-key step ahead of the other
    && (y.peers[0].level == y.peers[1].level + 1 || y.peers[1].level == y.peers[0].level + 1)
    && |y.w.sent| == Max(y.peers[0].level, y.peers[1].level)
    && Distinct(z, |y.w.sent| + 1)
    && PeerInv(z, y.w, y.peers[0]) && PeerInv(z, y.w, y.peers[1])
    && ChainsInv(y.w, y.peers)
    && DeliveredAsSent(y)
    && !y.crashed
  }

  // ---- skipped keys ----

  lemma IndexInjective(z: Session, n: nat, c: nat, i: nat, d: nat, j: nat)
    requires Distinct(z, n) && c + 1 < n && d + 1 < n && Index(z, c, i) == Index(z, d, j)
    ensures c == d && i == j
  {
  }

  /** A key is stored exactly when its message is pending. */
  lemma StoredIffPending(z: Session, w: Wire, level: nat, skipped: map<SkipKey, Bytes>, c: nat, i: nat)
    requires SkippedExactly(z, w, level, skipped) && Distinct(z, |w.derived| + 1) && c < |w.derived|
    ensures Index(z, c, i) in skipped <==> Pending(w, level, c, i)
  {
    if Index(z, c, i) in skipped {
      var d: nat, j: nat :| Pending(w, level, d, j) && Index(z, d, j) == Index(z, c, i);
      IndexInjective(z, |w.derived| + 1, c, i, d, j);
    }
  }

  ghost function Derive(w: Wire, c: nat, n: nat): Wire
    requires c < |w.derived|
  {
    w.(derived := w.derived[c := n])
  }

  /** The receiver of chain c at this level has the current key of that chain. */
  ghost predicate Receiving(z: Session, w: Wire, level: nat, c: nat, st: State) {
    && c < |w.derived| && c + 2 <= level && c % 2 == level % 2
    && st.dhr == Some(z.s.pub(z.keys(c + 1)))
    && st.ckr == Some(ChainKey(z, c, st.nr))
    && st.nr == w.derived[c]
    && (forall i :: (c, i) in w.delivered ==> i < st.nr)
    && SkippedExactly(z, w, level, st.skipped)
    && Distinct(z, |w.derived| + 1)
  }

  lemma PendingStep(w: Wire, level: nat, c: nat, d: nat, i: nat)
    requires c < |w.derived| && c + 2 <= level && c % 2 == level % 2 && (c, w.derived[c]) !in w.delivered
    ensures Pending(Derive(w, c, w.derived[c] + 1), level, d, i)
      <==> Pending(w, level, d, i) || (d == c && i == w.derived[c])
  {
  }

  lemma AddSkipped(z: Session, w: Wire, level: nat, c: nat, m: map<SkipKey, Bytes>)
    requires c < |w.derived| && c + 2 <= level && c % 2 == level % 2 && (c, w.derived[c]) !in w.delivered
    requires SkippedExactly(z, w, level, m) && Distinct(z, |w.derived| + 1)
    ensures var n := w.derived[c];
      SkippedExactly(z, Derive(w, c, n + 1), level, m[Index(z, c, n) := MessageKey(z, c, n)])
  {
    hide Fingerprint, MessageKey;
    var n := w.derived[c];
    var w', m' := Derive(w, c, n + 1), m[Index(z, c, n) := MessageKey(z, c, n)];
    forall d: nat, i: nat | Pending(w', level, d, i)
      ensures Index(z, d, i) in m' && m'[Index(z, d, i)] == MessageKey(z, d, i)
    {
      PendingStep(w, level, c, d, i);
      if Index(z, d, i) == Index(z, c, n) {
        IndexInjective(z, |w.derived| + 1, d, i, c, n);
      }
    }
    forall k | k in m' ensures exists d: nat, i: nat :: Pending(w', level, d, i) && Index(z, d, i) == k {
      if k == Index(z, c, n) {
        PendingStep(w, level, c, c, n);
      } else {
        var d: nat, i: nat :| Pending(w, level, d, i) && Index(z, d, i) == k;
        PendingStep(w, level, c, d, i);
      }
    }
  }

  lemma SkipOneKeeps(z: Session, w: Wire, level: nat, c: nat, st: State)
    requires Receiving(z, w, level, c, st)
    ensures Receiving(z, Derive(w, c, st.nr + 1), level, c, SkipOne(z.s, st))
    ensures SkipOne(z.s, st)
      == st.(ckr := Some(ChainKey(z, c, st.nr + 1)), nr := st.nr + 1, skipped := SkipOne(z.s, st).skipped)
  {
    AddSkipped(z, w, level, c, st.skipped);
    assert GetKeyFromRatchet(z.s, st.dhr.value, st.nr) == Index(z, c, st.nr);
  }

  lemma {:induction false} SkipKeeps(z: Session, w: Wire, level: nat, c: nat, st: State, until: nat)
    requires Receiving(z, w, level, c, st)
    ensures var n, st' := Max(st.nr, until), Skip(z.s, st, until);
      && st' == st.(nr := n, ckr := Some(ChainKey(z, c, n)), skipped := st'.skipped)
      && Receiving(z, Derive(w, c, n), level, c, st')
    decreases until - st.nr
  {
    if st.nr < until {
      var w' := Derive(w, c, st.nr + 1);
      SkipOneKeeps(z, w, level, c, st);
      SkipKeeps(z, w', level, c, SkipOne(z.s, st), until);
      assert Derive(w', c, until) == Derive(w, c, until);
    } else {
      assert Derive(w, c, st.nr) == w;
    }
  }

  // ---- opening one message ----

  /** With the sender's key at hand, the message opens to what was sent. */
  lemma KeyOpens(z: Session, w: Wire, c: nat, i: nat)
    requires z.s.Lawful() && c < |w.sent| && i < |w.sent[c]| && SentWell(z, w, c, i)
    ensures var m := w.sent[c][i].message;
      && DecodePoint(z.s.curve, m.header.pubKey) == Some(z.s.pub(z.keys(c + 1)))
      && StoredKey(z.s, m.header) == Index(z, c, i)
      && Decryptable(z.s, MessageKey(z, c, i), m.message, m.header)
      && DecryptAEAD(z.s, MessageKey(z, c, i), m.message, m.header) == Some(w.sent[c][i].plaintext)
  {
    hide MessageKey;
    var e := w.sent[c][i];
    PubBytesDecode(z.s, z.keys(c + 1));
    DecryptInvertsEncrypt(z.s, MessageKey(z, c, i), e.plaintext, [], e.message.header);
  }

  /** A stored key opens its message and is used up. */
  lemma OpenStored(z: Session, w: Wire, level: nat, st: State, c: nat, i: nat, newKey: PrivateKey)
    requires z.s.Lawful() && c < |w.sent| && i < |w.sent[c]| && SentWell(z, w, c, i)
    requires st.Valid() && SkippedExactly(z, w, level, st.skipped) && Pending(w, level, c, i)
    ensures var m := w.sent[c][i].message;
      && CanDecrypt(z.s, st, m.header, m.message, newKey)
      && Decrypt(z.s, st, m.header, m.message, newKey)
           == (Forget(st, Index(z, c, i)), Some(w.sent[c][i].plaintext))
  {
    hide MessageKey, Index;
    KeyOpens(z, w, c, i);
  }

  /** A message whose key is not stored opens once the chain is advanced to its number. */
  lemma OpenNext(z: Session, w: Wire, st: State, c: nat, i: nat, newKey: PrivateKey, st': State)
    requires z.s.Lawful() && c < |w.sent| && i < |w.sent[c]| && SentWell(z, w, c, i)
    requires st.Valid() && Index(z, c, i) !in st.skipped
    requires Advance(z.s, st, z.s.pub(z.keys(c + 1)), i, newKey) == st' && st'.ckr == Some(ChainKey(z, c, i))
    ensures var m := w.sent[c][i].message;
      && CanDecrypt(z.s, st, m.header, m.message, newKey)
      && Decrypt(z.s, st, m.header, m.message, newKey)
           == (st'.(ckr := Some(ChainKey(z, c, i + 1)), nr := st'.nr + 1), Some(w.sent[c][i].plaintext))
  {
    hide Index, Advance;
    KeyOpens(z, w, c, i);
  }

  // ---- the invariant is kept: sending ----

  ghost function SendOn(w: Wire, c: nat, e: Sent): Wire
    requires c < |w.sent|
  {
    w.(sent := w.sent[c := w.sent[c] + [e]])
  }

  lemma WireSends(z: Session, w: Wire, c: nat, e: Sent)
    requires z.s.Lawful() && WireInv(z, w) && c < |w.sent| <= c + 2
    requires SentWell(z, SendOn(w, c, e), c, |w.sent[c]|)
    ensures WireInv(z, SendOn(w, c, e))
  {
    hide MessageKey;
    var w' := SendOn(w, c, e);
    forall d, i | 0 <= d < |w'.sent| && 0 <= i < |w'.sent[d]| ensures SentWell(z, w', d, i) {
      if d != c || i != |w.sent[c]| {
        assert SentWell(z, w, d, i);
      }
    }
  }

  lemma SamePending(z: Session, w: Wire, w': Wire, level: nat, level': nat, m: map<SkipKey, Bytes>)
    requires SkippedExactly(z, w, level, m)
    requires forall c: nat, i: nat :: Pending(w, level, c, i) <==> Pending(w', level', c, i)
    ensures SkippedExactly(z, w', level', m)
  {
    hide MessageKey, Index;
    forall k | k in m ensures exists c: nat, i: nat :: Pending(w', level', c, i) && Index(z, c, i) == k {
      var c: nat, i: nat :| Pending(w, level, c, i) && Index(z, c, i) == k;
      assert Pending(w', level', c, i);
    }
  }

  lemma OtherPeerSends(z: Session, w: Wire, c: nat, e: Sent, x: Peer)
    requires |w.derived| == |w.sent| && c < |w.sent| && PeerInv(z, w, x)
    requires x.level != c + 1 && x.level != c + 3
    ensures PeerInv(z, SendOn(w, c, e), x)
  {
    hide Root, ChainKey, SkippedExactly;
    SamePending(z, w, SendOn(w, c, e), x.level, x.level, x.st.skipped);
  }

  ghost function SentBy(z: Session, x: Peer, a: Action): (State, Sent)
    requires z.s.Lawful() && a.Send? && x.st.cks.Some?
  {
    var (st, m) := Encrypt(z.s, x.st, a.plaintext, a.origin, a.destination, a.ad);
    (st, Sent(m, a.plaintext))
  }

  lemma SenderSends(z: Session, w: Wire, x: Peer, a: Action)
    requires z.s.Lawful() && a.Send? && x.st.cks.Some?
    requires |w.derived| == |w.sent| && PeerInv(z, w, x)
    ensures var (st, e) := SentBy(z, x, a);
      && 1 <= x.level <= |w.sent|
      && PeerInv(z, SendOn(w, x.level - 1, e), x.(st := st))
      && SentWell(z, SendOn(w, x.level - 1, e), x.level - 1, |w.sent[x.level - 1]|)
  {
    hide Root, SkippedExactly;
    var (st, e) := SentBy(z, x, a);
    SamePending(z, w, SendOn(w, x.level - 1, e), x.level, x.level, x.st.skipped);
  }

  lemma SendKeeps(z: Session, y: System, a: Action)
    requires z.s.Lawful() && Inv(z, y) && a.Send? && Enabled(z, y, a)
    ensures Inv(z, Execute(z, y, a))
  {
    hide PeerInv, SentWell, Encrypt, Distinct;
    var x, o := y.peers[a.party], y.peers[1 - a.party];
    SenderSends(z, y.w, x, a);
    var (st, e) := SentBy(z, x, a);
    WireSends(z, y.w, x.level - 1, e);
    OtherPeerSends(z, y.w, x.level - 1, e, o);
  }

  // ---- the invariant is kept: delivering ----

  ghost function Mark(w: Wire, c: nat, i: nat): Wire {
    w.(delivered := w.delivered + {(c, i)})
  }

  /** How a delivery of message i of chain c may change the wire. */
  ghost predicate WireStep(w: Wire, w': Wire, c: nat, i: nat) {
    && |w.derived| == |w.sent| <= |w'.sent| == |w'.derived|
    && (forall d :: 0 <= d < |w.sent| ==> w'.sent[d] == w.sent[d] && w.derived[d] <= w'.derived[d])
    && (forall d :: |w.sent| <= d < |w'.sent| ==> w'.sent[d] == [] && w'.derived[d] == 0)
    && (forall d :: 0 <= d < |w.sent| && d % 2 != c % 2 ==> w'.derived[d] == w.derived[d])
    && w'.delivered == w.delivered + {(c, i)}
    && c < |w.sent| && i < w'.derived[c]
  }

  /** Whatever the other peer receives is on chains of the other parity. */
  lemma OtherPeerKept(z: Session, w: Wire, w': Wire, c: nat, i: nat, x: Peer)
    requires WireStep(w, w', c, i) && PeerInv(z, w, x) && x.level % 2 != c % 2
    ensures PeerInv(z, w', x)
  {
    hide Root, ChainKey, SkippedExactly;
    SamePending(z, w, w', x.level, x.level, x.st.skipped);
  }

  lemma WireDelivers(z: Session, w: Wire, w': Wire, c: nat, i: nat)
    requires z.s.Lawful() && WireInv(z, w) && WireStep(w, w', c, i)
    ensures WireInv(z, w')
  {
    hide MessageKey;
    forall d, j | 0 <= d < |w'.sent| && 0 <= j < |w'.sent[d]| ensures SentWell(z, w', d, j) {
      assert SentWell(z, w, d, j);
    }
  }

  lemma LogGrows(y: System, y': System, c: nat, i: nat)
    requires DeliveredAsSent(y) && InFlight(y, c, i) && |y.w.sent| <= |y'.w.sent|
    requires forall d :: 0 <= d < |y.w.sent| ==> y'.w.sent[d] == y.w.sent[d]
    requires y'.log == y.log + [Delivery(c, i, Some(y.w.sent[c][i].plaintext))]
    ensures DeliveredAsSent(y')
  {
    forall k | 0 <= k < |y'.log|
      ensures y'.log[k].chain < |y'.w.sent| && y'.log[k].number < |y'.w.sent[y'.log[k].chain]|
      ensures y'.log[k].plaintext == Some(y'.w.sent[y'.log[k].chain][y'.log[k].number].plaintext)
    {
      if k < |y.log| {
        assert y'.log[k] == y.log[k];
      }
    }
  }

  ghost function Delivered(y: System, c: nat, i: nat, w': Wire, x': Peer): System
    requires InFlight(y, c, i) && |y.peers| == 2
  {
    System(w', y.peers[c % 2 := x'], y.log + [Delivery(c, i, Some(y.w.sent[c][i].plaintext))], false)
  }

  ghost predicate ReceiverChains(w: Wire, c: nat, level: nat)
    requires |w.derived| == |w.sent|
  {
    forall d :: 0 <= d < |w.sent| && d % 2 == c % 2 ==> level < d + 2 ==> w.derived[d] == 0
  }

  /** A delivery keeps the invariant if it does so for the receiver. */
  lemma Assemble(z: Session, y: System, c: nat, i: nat, w': Wire, x': Peer)
    requires z.s.Lawful() && Inv(z, y) && InFlight(y, c, i) && WireStep(y.w, w', c, i)
    requires PeerInv(z, w', x') && x'.level % 2 == c % 2 && ReceiverChains(w', c, x'.level)
    requires var o := y.peers[1 - c % 2].level;
      (o == x'.level + 1 || x'.level == o + 1) && |w'.sent| == Max(x'.level, o)
    requires Distinct(z, |w'.sent| + 1)
    ensures Inv(z, Delivered(y, c, i, w', x'))
  {
    hide PeerInv, SentWell, Distinct;
    var o, y' := y.peers[1 - c % 2], Delivered(y, c, i, w', x');
    WireDelivers(z, y.w, w', c, i);
    OtherPeerKept(z, y.w, w', c, i, o);
    LogGrows(y, y', c, i);
    assert y'.peers[c % 2] == x' && y'.peers[1 - c % 2] == o;
    OtherChains(y, w', c, i, x');
  }

  lemma OtherChains(y: System, w': Wire, c: nat, i: nat, x': Peer)
    requires |y.peers| == 2 && |y.w.derived| == |y.w.sent| && ChainsInv(y.w, y.peers)
    requires WireStep(y.w, w', c, i) && ReceiverChains(w', c, x'.level)
    requires |w'.sent| <= |y.w.sent| || y.peers[1 - c % 2].level < |y.w.sent| + 2
    ensures ChainsInv(w', y.peers[c % 2 := x'])
  {
    var peers' := y.peers[c % 2 := x'];
    forall d | 0 <= d < |w'.sent|
      ensures peers'[d % 2].level < d + 2 ==> w'.derived[d] == 0
    {
      if d % 2 != c % 2 {
        assert peers'[d % 2] == y.peers[d % 2];
      }
    }
  }

  /** What is still out and not lost is stored, or further on the current chain, or on the next one. */
  lemma ThreeCases(z: Session, y: System, c: nat, i: nat)
    requires z.s.Lawful() && Inv(z, y) && InFlight(y, c, i) && !Lost(y, c, i)
    ensures var x := y.peers[c % 2];
      && c % 2 == x.level % 2 && x.st.Valid()
      && (Index(z, c, i) in x.st.skipped <==> Pending(y.w, x.level, c, i))
      && (Pending(y.w, x.level, c, i) || (c + 2 == x.level && x.st.nr <= i) || (c == x.level && |y.w.sent| == c + 1))
  {
    hide Root, ChainKey, SkippedExactly, Index, Distinct, SentWell, DeliveredAsSent;
    var x := y.peers[c % 2];
    StoredIffPending(z, y.w, x.level, x.st.skipped, c, i);
  }

  lemma RemoveSkipped(z: Session, w: Wire, level: nat, c: nat, i: nat, m: map<SkipKey, Bytes>)
    requires SkippedExactly(z, w, level, m) && Distinct(z, |w.derived| + 1) && Pending(w, level, c, i)
    ensures SkippedExactly(z, Mark(w, c, i), level, m - {Index(z, c, i)})
  {
    hide Fingerprint, MessageKey;
    var w', m' := Mark(w, c, i), m - {Index(z, c, i)};
    forall d: nat, j: nat | Pending(w', level, d, j)
      ensures Index(z, d, j) in m' && m'[Index(z, d, j)] == MessageKey(z, d, j)
    {
      assert Pending(w, level, d, j);
    }
    forall k | k in m' ensures exists d: nat, j: nat :: Pending(w', level, d, j) && Index(z, d, j) == k {
      var d: nat, j: nat :| Pending(w, level, d, j) && Index(z, d, j) == k;
      assert Pending(w', level, d, j);
    }
  }

  /** A delivery that decrypts to what was sent. */
  ghost predicate Opens(z: Session, y: System, c: nat, i: nat, st': State)
    requires z.s.Lawful() && |y.peers| == 2 && InFlight(y, c, i)
  {
    var x, m := y.peers[c % 2], y.w.sent[c][i].message;
    && x.st.Valid() && CanDecrypt(z.s, x.st, m.header, m.message, z.keys(x.level + 2))
    && Decrypt(z.s, x.st, m.header, m.message, z.keys(x.level + 2)) == (st', Some(y.w.sent[c][i].plaintext))
    && StoredKey(z.s, m.header) == Index(z, c, i)
  }

  lemma Executes(z: Session, y: System, c: nat, i: nat, st': State)
    requires z.s.Lawful() && |y.peers| == 2 && |y.w.derived| == |y.w.sent| && Enabled(z, y, Deliver(c, i))
    requires Opens(z, y, c, i, st')
    ensures var x := y.peers[c % 2];
      Execute(z, y, Deliver(c, i)) == Delivered(y, c, i,
        Receipt(y.w, x, c, i, Index(z, c, i) in x.st.skipped),
        Peer(st', if c == x.level then x.level + 2 else x.level))
  {
    hide Index, CanDecrypt, Decrypt, Receipt;
  }

  lemma StoredKeeps(z: Session, y: System, c: nat, i: nat)
    requires z.s.Lawful() && Inv(z, y) && Enabled(z, y, Deliver(c, i))
    requires Pending(y.w, y.peers[c % 2].level, c, i)
    ensures Inv(z, Execute(z, y, Deliver(c, i)))
  {
    hide PeerInv, SentWell, Distinct, Index, Opens, Execute;
    var x := y.peers[c % 2];
    var st', w' := Forget(x.st, Index(z, c, i)), Mark(y.w, c, i);
    ThreeCases(z, y, c, i);
    StoredReceiver(z, y.w, x, c, i);
    assert Opens(z, y, c, i, st') by { OpensStored(z, y, c, i); }
    Executes(z, y, c, i, st');
    Assemble(z, y, c, i, w', Peer(st', x.level));
  }

  lemma OpensStored(z: Session, y: System, c: nat, i: nat)
    requires z.s.Lawful() && |y.peers| == 2 && InFlight(y, c, i) && SentWell(z, y.w, c, i)
    requires |y.w.derived| == |y.w.sent| && PeerInv(z, y.w, y.peers[c % 2])
    requires Pending(y.w, y.peers[c % 2].level, c, i)
    ensures Opens(z, y, c, i, Forget(y.peers[c % 2].st, Index(z, c, i)))
  {
    hide CanDecrypt, Decrypt, Index, Root, ChainKey, SkippedExactly;
    var x := y.peers[c % 2];
    OpenStored(z, y.w, x.level, x.st, c, i, z.keys(x.level + 2));
    KeyOpens(z, y.w, c, i);
  }

  lemma StoredReceiver(z: Session, w: Wire, x: Peer, c: nat, i: nat)
    requires |w.derived| == |w.sent| && PeerInv(z, w, x) && Pending(w, x.level, c, i)
    requires Distinct(z, |w.derived| + 1)
    ensures PeerInv(z, Mark(w, c, i), Peer(Forget(x.st, Index(z, c, i)), x.level))
  {
    hide Root, ChainKey, SkippedExactly, Index, Distinct;
    RemoveSkipped(z, w, x.level, c, i, x.st.skipped);
  }

  lemma WithNumber(w: Wire, c: nat, i: nat)
    requires c < |w.derived|
    ensures forall level: nat, d: nat, j: nat ::
      Pending(Mark(Derive(w, c, i + 1), c, i), level, d, j)
      <==> Pending(Derive(w, c, i), level, d, j)
  {
  }

  /** The state after the key of the message is consumed. */
  function Consumed(z: Session, st: State, c: nat, i: nat): State {
    st.(ckr := Some(ChainKey(z, c, i + 1)), nr := i + 1)
  }

  lemma CurrentReceiver(z: Session, w: Wire, x: Peer, c: nat, i: nat)
    requires |w.derived| == |w.sent| && PeerInv(z, w, x) && c + 2 == x.level && x.st.nr <= i
    requires Receiving(z, w, x.level, c, x.st)
    ensures var st' := Skip(z.s, x.st, i);
      && st'.nr == i && st'.ckr == Some(ChainKey(z, c, i))
      && PeerInv(z, Mark(Derive(w, c, i + 1), c, i), Peer(Consumed(z, st', c, i), x.level))
  {
    hide Root, ChainKey, SkippedExactly, Skip, Distinct, Receiving;
    SkipKeeps(z, w, x.level, c, x.st, i);
    SkippedSoFar(z, w, x.level, c, i, Skip(z.s, x.st, i));
  }

  /** Taking the next key leaves the stored ones as they are. */
  lemma SkippedSoFar(z: Session, w: Wire, level: nat, c: nat, i: nat, st: State)
    requires c < |w.derived| && Receiving(z, Derive(w, c, i), level, c, st)
    ensures SkippedExactly(z, Mark(Derive(w, c, i + 1), c, i), level, st.skipped)
  {
    hide SkippedExactly, Distinct, ChainKey, Pending;
    WithNumber(w, c, i);
    SamePending(z, Derive(w, c, i), Mark(Derive(w, c, i + 1), c, i), level, level, st.skipped);
  }

  lemma IsReceiving(z: Session, w: Wire, x: Peer)
    requires z.s.Lawful() && WireInv(z, w) && PeerInv(z, w, x) && Distinct(z, |w.sent| + 1) && 2 <= x.level
    ensures Receiving(z, w, x.level, x.level - 2, x.st)
  {
    hide Root, ChainKey, SkippedExactly, Distinct, SentWell;
  }

  /** What the delivery lemmas need of the invariant. */
  lemma Parts(z: Session, y: System, c: nat, i: nat)
    requires z.s.Lawful() && Inv(z, y) && InFlight(y, c, i)
    ensures |y.peers| == 2 && |y.w.derived| == |y.w.sent| && WireInv(z, y.w) && SentWell(z, y.w, c, i)
    ensures Distinct(z, |y.w.sent| + 1)
    ensures var x, o := y.peers[c % 2], y.peers[1 - c % 2];
      && PeerInv(z, y.w, x) && x.level % 2 == c % 2 && x.st.Valid() && ReceiverChains(y.w, c, x.level)
      && (o.level == x.level + 1 || x.level == o.level + 1) && |y.w.sent| == Max(x.level, o.level)
  {
    hide Root, ChainKey, SkippedExactly, Distinct, SentWell, DeliveredAsSent;
  }

  lemma CurrentWire(w: Wire, c: nat, i: nat, x: Peer, stored: bool)
    requires |w.derived| == |w.sent| && c < |w.sent| && w.derived[c] <= i
    requires c + 2 == x.level && ReceiverChains(w, c, x.level) && !stored
    ensures var w' := Mark(Derive(w, c, i + 1), c, i);
      && WireStep(w, w', c, i) && ReceiverChains(w', c, x.level)
      && w' == Receipt(w, x, c, i, stored) && w'.sent == w.sent
  {
  }

  lemma CurrentKeeps(z: Session, y: System, c: nat, i: nat)
    requires z.s.Lawful() && Inv(z, y) && Enabled(z, y, Deliver(c, i))
    requires c + 2 == y.peers[c % 2].level && y.peers[c % 2].st.nr <= i
    requires !Pending(y.w, y.peers[c % 2].level, c, i)
    ensures Inv(z, Execute(z, y, Deliver(c, i)))
  {
    hide Inv, PeerInv, SentWell, Distinct, Index, Opens, Execute, Skip, Receiving, WireInv, Mark, Derive, Receipt,
      ReceiverChains, WireStep;
    Parts(z, y, c, i);
    ThreeCases(z, y, c, i);
    var x := y.peers[c % 2];
    var st', w' := Consumed(z, Skip(z.s, x.st, i), c, i), Mark(Derive(y.w, c, i + 1), c, i);
    IsReceiving(z, y.w, x);
    CurrentReceiver(z, y.w, x, c, i);
    OpensCurrent(z, y, c, i);
    Executes(z, y, c, i, st');
    ReceivedSoFar(z, y.w, x);
    CurrentWire(y.w, c, i, x, Index(z, c, i) in x.st.skipped);
    Assemble(z, y, c, i, w', Peer(st', x.level));
  }

  lemma ReceivedSoFar(z: Session, w: Wire, x: Peer)
    requires |w.derived| == |w.sent| && PeerInv(z, w, x)
    ensures 2 <= x.level ==> w.derived[x.level - 2] == x.st.nr
  {
  }

  lemma OpensCurrent(z: Session, y: System, c: nat, i: nat)
    requires z.s.Lawful() && |y.peers| == 2 && InFlight(y, c, i) && SentWell(z, y.w, c, i)
    requires |y.w.derived| == |y.w.sent| && PeerInv(z, y.w, y.peers[c % 2])
    requires c + 2 == y.peers[c % 2].level && Index(z, c, i) !in y.peers[c % 2].st.skipped
    requires Skip(z.s, y.peers[c % 2].st, i).ckr == Some(ChainKey(z, c, i))
    requires Skip(z.s, y.peers[c % 2].st, i).nr == i
    ensures Opens(z, y, c, i, Consumed(z, Skip(z.s, y.peers[c % 2].st, i), c, i))
  {
    hide CanDecrypt, Decrypt, Index, Root, ChainKey, SkippedExactly, Skip;
    var x := y.peers[c % 2];
    OpenNext(z, y.w, x.st, c, i, z.keys(x.level + 2), Skip(z.s, x.st, i));
    KeyOpens(z, y.w, c, i);
  }

  // ---- a delivery that opens a new epoch ----

  /** A key not seen before is not the current remote key. */
  lemma NewEpoch(z: Session, w: Wire, x: Peer)
    requires PeerInvAt(z, w, x) && x.level < |w.sent| && Distinct(z, |w.sent| + 1)
    ensures IsNewEpoch(x.st, z.s.pub(z.keys(x.level + 1)))
  {
    if x.level > 0 {
      assert Fingerprint(z, x.level - 1) != Fingerprint(z, x.level + 1);
    }
  }

  ghost predicate PeerInvAt(z: Session, w: Wire, x: Peer) {
    |w.derived| == |w.sent| && PeerInv(z, w, x)
  }

  /** The old chain is closed at number n: its keys below n are derived. */
  lemma OldChain(z: Session, w: Wire, x: Peer, n: nat)
    requires PeerInvAt(z, w, x) && Distinct(z, |w.sent| + 1) && x.st.Valid()
    requires 2 <= x.level ==> Receiving(z, w, x.level, x.level - 2, x.st)
    ensures var st', w' := Skip(z.s, x.st, n), CloseChain(w, x.level, x.st.nr, n);
      && st' == x.st.(nr := st'.nr, ckr := st'.ckr, skipped := st'.skipped)
      && SkippedExactly(z, w', x.level, st'.skipped)
  {
    hide Root, ChainKey, SkippedExactly, Distinct;
    if 2 <= x.level {
      SkipKeeps(z, w, x.level, x.level - 2, x.st, n);
    }
  }

  /** Both root-key steps land on the shared key schedule, thanks to DH symmetry. */
  lemma TwoRootSteps(z: Session, st: State, l: nat)
    requires z.s.Lawful() && st.rk == Root(z, l) && st.dhs == z.keys(l)
    ensures DHStep(z.s, st, z.s.pub(z.keys(l + 1)), z.keys(l + 2))
      == st.(pn := st.ns, ns := 0, nr := 0, dhr := Some(z.s.pub(z.keys(l + 1))),
             ckr := Some(ChainKey(z, l, 0)), dhs := z.keys(l + 2), rk := Root(z, l + 2),
             cks := Some(ChainKey(z, l + 1, 0)))
  {
    DHSymmetry(z.s, z.keys(l + 2), z.keys(l + 1));
    assert Root(z, l + 2) == RootStep(z, l + 1, Root(z, l + 1)).0;
  }

  ghost function NewEpochWire(w: Wire, x: Peer, n: nat): (r: Wire)
    ensures |r.derived| == |w.derived| + 1
  {
    NewChain(CloseChain(w, x.level, x.st.nr, n))
  }

  lemma NewChainPending(w: Wire, level: nat)
    requires |w.derived| == level + 1 && w.derived[level] == 0
    ensures forall c: nat, i: nat :: Pending(w, level, c, i) <==> Pending(NewChain(w), level + 2, c, i)
  {
  }

  lemma DistinctMore(z: Session, n: nat)
    requires Distinct(z, n) && FreshKey(z, n)
    ensures Distinct(z, n + 1)
  {
  }

  ghost predicate AtNewEpoch(z: Session, w: Wire, x: Peer) {
    && z.s.Lawful() && PeerInvAt(z, w, x) && |w.sent| == x.level + 1 && w.derived[x.level] == 0
    && Distinct(z, |w.sent| + 1) && FreshKey(z, x.level + 2) && x.st.Valid()
    && (forall i :: (x.level, i) !in w.delivered)
    && (2 <= x.level ==> Receiving(z, w, x.level, x.level - 2, x.st))
  }

  lemma EpochState(z: Session, w: Wire, x: Peer, n: nat)
    requires AtNewEpoch(z, w, x)
    ensures Epoch(z.s, x.st, z.s.pub(z.keys(x.level + 1)), n, z.keys(x.level + 2))
      == State(z.keys(x.level + 2), Some(z.s.pub(z.keys(x.level + 1))), Root(z, x.level + 2),
               Some(ChainKey(z, x.level + 1, 0)), Some(ChainKey(z, x.level, 0)),
               0, 0, x.st.ns, Skip(z.s, x.st, n).skipped)
  {
    hide Root, ChainKey, SkippedExactly, Distinct, Skip, DHStep, Receiving;
    NewEpoch(z, w, x);
    OldChain(z, w, x, n);
    TwoRootSteps(z, Skip(z.s, x.st, n), x.level);
  }

  lemma EpochPending(z: Session, w: Wire, x: Peer, n: nat)
    requires AtNewEpoch(z, w, x)
    ensures Distinct(z, x.level + 3)
    ensures SkippedExactly(z, NewEpochWire(w, x, n), x.level + 2, Skip(z.s, x.st, n).skipped)
  {
    hide Root, ChainKey, SkippedExactly, Distinct, Skip, Receiving, State.Valid;
    var w1 := CloseChain(w, x.level, x.st.nr, n);
    OldChain(z, w, x, n);
    DistinctMore(z, x.level + 2);
    hide PeerInv;
    NewChainPending(w1, x.level);
    SamePending(z, w1, NewChain(w1), x.level, x.level + 2, Skip(z.s, x.st, n).skipped);
  }

  /** After the DH step the peer receives on the new chain from its start. */
  lemma EpochReceiving(z: Session, w: Wire, x: Peer, n: nat)
    requires AtNewEpoch(z, w, x)
    ensures var st' := Epoch(z.s, x.st, z.s.pub(z.keys(x.level + 1)), n, z.keys(x.level + 2));
      && st' == State(z.keys(x.level + 2), Some(z.s.pub(z.keys(x.level + 1))), Root(z, x.level + 2),
                      Some(ChainKey(z, x.level + 1, 0)), Some(ChainKey(z, x.level, 0)),
                      0, 0, x.st.ns, Skip(z.s, x.st, n).skipped)
      && Receiving(z, NewEpochWire(w, x, n), x.level + 2, x.level, st')
  {
    hide Root, ChainKey, SkippedExactly, Distinct, Skip, Epoch, PeerInv;
    EpochState(z, w, x, n);
    EpochPending(z, w, x, n);
  }

  lemma NewEpochAdvance(z: Session, w: Wire, x: Peer, i: nat)
    requires AtNewEpoch(z, w, x)
    ensures var c := x.level;
      var st := Advance(z.s, x.st, z.s.pub(z.keys(c + 1)), i, z.keys(c + 2));
      && st == State(z.keys(c + 2), Some(z.s.pub(z.keys(c + 1))), Root(z, c + 2), Some(ChainKey(z, c + 1, 0)),
                     Some(ChainKey(z, c, i)), 0, i, x.st.ns, st.skipped)
      && SkippedExactly(z, Mark(Derive(NewEpochWire(w, x, i), c, i + 1), c, i), c + 2, st.skipped)
  {
    hide Root, ChainKey, SkippedExactly, Skip, Distinct, Epoch, Receiving;
    var c, w1 := x.level, NewEpochWire(w, x, i);
    var st1 := Epoch(z.s, x.st, z.s.pub(z.keys(c + 1)), i, z.keys(c + 2));
    EpochReceiving(z, w, x, i);
    SkipKeeps(z, w1, c + 2, c, st1, i);
    SkippedSoFar(z, w1, c + 2, c, i, Skip(z.s, st1, i));
  }

  lemma NewEpochReceiver(z: Session, w: Wire, x: Peer, i: nat)
    requires AtNewEpoch(z, w, x)
    ensures var c := x.level;
      var st := Advance(z.s, x.st, z.s.pub(z.keys(c + 1)), i, z.keys(c + 2));
      && st.nr == i && st.ckr == Some(ChainKey(z, c, i))
      && PeerInvAt(z, Mark(Derive(NewEpochWire(w, x, i), c, i + 1), c, i), Peer(Consumed(z, st, c, i), c + 2))
  {
    hide Root, ChainKey, SkippedExactly, Advance, Distinct, Receiving;
    NewEpochAdvance(z, w, x, i);
  }

  lemma NewEpochChains(w: Wire, x: Peer, i: nat)
    requires |w.derived| == |w.sent| == x.level + 1 && ReceiverChains(w, x.level, x.level)
    requires 2 <= x.level ==> w.derived[x.level - 2] <= x.st.nr
    ensures var w' := Mark(Derive(NewEpochWire(w, x, i), x.level, i + 1), x.level, i);
      && WireStep(w, w', x.level, i) && ReceiverChains(w', x.level, x.level + 2)
      && w' == Receipt(w, x, x.level, i, false) && |w'.sent| == |w.sent| + 1
  {
  }

  /** Because header.pn counts what was sent on the old chain. */
  lemma OnTimeKeeps(z: Session, w: Wire, x: Peer, i: nat)
    requires PeerInvAt(z, w, x) && x.level < |w.sent| && i < |w.sent[x.level]|
    requires z.s.Lawful() && SentWell(z, w, x.level, i)
    ensures 2 <= x.level ==>
      (OnTime(x.st, w.sent[x.level][i].message.header) <==> |w.sent[x.level - 2]| <= Max(x.st.nr, i))
  {
    hide Root, ChainKey, SkippedExactly;
  }

  lemma OpensNewEpoch(z: Session, y: System, c: nat, i: nat)
    requires z.s.Lawful() && |y.peers| == 2 && InFlight(y, c, i) && SentWell(z, y.w, c, i)
    requires c == y.peers[c % 2].level && Index(z, c, i) !in y.peers[c % 2].st.skipped
    requires y.peers[c % 2].st.Valid()
    requires var st := Advance(z.s, y.peers[c % 2].st, z.s.pub(z.keys(c + 1)), i, z.keys(c + 2));
      st.ckr == Some(ChainKey(z, c, i)) && st.nr == i
    ensures Opens(z, y, c, i,
      Consumed(z, Advance(z.s, y.peers[c % 2].st, z.s.pub(z.keys(c + 1)), i, z.keys(c + 2)), c, i))
  {
    hide CanDecrypt, Decrypt, Index, ChainKey, Advance;
    var x := y.peers[c % 2];
    OpenNext(z, y.w, x.st, c, i, z.keys(c + 2), Advance(z.s, x.st, z.s.pub(z.keys(c + 1)), i, z.keys(c + 2)));
    KeyOpens(z, y.w, c, i);
  }

  lemma AssembleNewEpoch(z: Session, y: System, c: nat, i: nat, w': Wire, x': Peer)
    requires z.s.Lawful() && Inv(z, y) && InFlight(y, c, i) && c == y.peers[c % 2].level
    requires |y.w.sent| == c + 1 && FreshKey(z, c + 2)
    requires WireStep(y.w, w', c, i) && |w'.sent| == |y.w.sent| + 1
    requires PeerInvAt(z, w', x') && x'.level == c + 2 && ReceiverChains(w', c, c + 2)
    ensures Inv(z, Delivered(y, c, i, w', x'))
  {
    hide Inv, PeerInv, SentWell, Distinct, WireStep, ReceiverChains, Receiving, WireInv;
    Parts(z, y, c, i);
    DistinctMore(z, c + 2);
    assert y.peers[1 - c % 2].level == c + 1;
    Assemble(z, y, c, i, w', x');
  }

  lemma NewEpochKeeps(z: Session, y: System, c: nat, i: nat)
    requires z.s.Lawful() && Inv(z, y) && Enabled(z, y, Deliver(c, i)) && c == y.peers[c % 2].level
    ensures Inv(z, Execute(z, y, Deliver(c, i)))
  {
    hide Inv, PeerInv, SentWell, Distinct, Index, Opens, Execute, Advance, WireInv, Mark, Derive, NewEpochWire,
      Receipt, ReceiverChains, WireStep;
    Parts(z, y, c, i);
    ThreeCases(z, y, c, i);
    var x := y.peers[c % 2];
    AtNewEpochFrom(z, y, c, i);
    var st' := Consumed(z, Advance(z.s, x.st, z.s.pub(z.keys(c + 1)), i, z.keys(c + 2)), c, i);
    var w' := Mark(Derive(NewEpochWire(y.w, x, i), c, i + 1), c, i);
    NewEpochReceiver(z, y.w, x, i);
    OpensNewEpoch(z, y, c, i);
    Executes(z, y, c, i, st');
    ReceivedSoFar(z, y.w, x);
    NewEpochChains(y.w, x, i);
    AssembleNewEpoch(z, y, c, i, w', Peer(st', c + 2));
  }

  // ---- main results ----

  lemma StepKeeps(z: Session, y: System, a: Action)
    requires z.s.Lawful() && Inv(z, y) && Enabled(z, y, a)
    ensures Inv(z, Execute(z, y, a))
  {
    hide Inv, Execute;
    match a
    case Send(_, _, _, _, _) => SendKeeps(z, y, a);
    case Deliver(c, i) =>
      Parts(z, y, c, i);
      ThreeCases(z, y, c, i);
      if Pending(y.w, y.peers[c % 2].level, c, i) {
        StoredKeeps(z, y, c, i);
      } else if c == y.peers[c % 2].level {
        NewEpochKeeps(z, y, c, i);
      } else {
        CurrentKeeps(z, y, c, i);
      }
  }

  /** Both ratchets as X3DH leaves them: the responder holds key 0, the initiator key 1. */
  ghost function Initial(z: Session): System {
    System(Wire([[]], [0], {}),
           [Peer(ReceiverState(z.sk, z.keys(0)), 0),
            Peer(SenderState(z.s, z.sk, z.s.pub(z.keys(0)), z.keys(1)), 1)],
           [], false)
  }

  lemma InitialInv(z: Session)
    requires z.s.Lawful() && Distinct(z, 2)
    ensures Inv(z, Initial(z))
  {
    hide PeerInv, Suite.Lawful, Distinct;
    InitialPeers(z);
  }

  lemma InitialPeers(z: Session)
    requires z.s.Lawful()
    ensures var y := Initial(z);
      PeerInv(z, y.w, y.peers[0]) && PeerInv(z, y.w, y.peers[1])
  {
    DHSymmetry(z.s, z.keys(1), z.keys(0));
    hide Suite.Lawful;
    assert Root(z, 1) == RootStep(z, 0, Root(z, 0)).0;
  }

  ghost predicate ValidRun(z: Session, y: System, run: seq<Action>)
    requires z.s.Lawful()
    decreases |run|
  {
    run == [] || (
      && Ready(y) && Enabled(z, y, run[0])
      && ValidRun(z, Execute(z, y, run[0]), run[1..]))
  }

  ghost function RunFrom(z: Session, y: System, run: seq<Action>): System
    requires z.s.Lawful() && ValidRun(z, y, run)
    decreases |run|
  {
    if run == [] then y else RunFrom(z, Execute(z, y, run[0]), run[1..])
  }

  lemma {:induction false} RunKeeps(z: Session, y: System, run: seq<Action>)
    requires z.s.Lawful() && Inv(z, y) && ValidRun(z, y, run)
    ensures Inv(z, RunFrom(z, y, run))
    decreases |run|
  {
    hide Inv, Execute;
    if run != [] {
      StepKeeps(z, y, run[0]);
      RunKeeps(z, Execute(z, y, run[0]), run[1..]);
    }
  }

  /** A peer's keys lie on the shared schedule, and it stores exactly the keys of the messages it
      has skipped and not received. */
  ghost predicate OnSchedule(z: Session, w: Wire, x: Peer) {
    && x.st.rk == Root(z, x.level)
    && (x.level >= 1 ==> x.st.cks == Some(ChainKey(z, x.level - 1, x.st.ns)))
    && (x.level >= 2 ==> x.st.ckr == Some(ChainKey(z, x.level - 2, x.st.nr)))
    && SkippedExactly(z, w, x.level, x.st.skipped)
  }

  lemma InvMeans(z: Session, y: System)
    requires z.s.Lawful() && Inv(z, y)
    ensures |y.peers| == 2 && OnSchedule(z, y.w, y.peers[0]) && OnSchedule(z, y.w, y.peers[1])
  {
    hide Root, ChainKey, SkippedExactly, Distinct, SentWell;
  }

  /** Over every run, of any number of epochs: nothing crashes, every delivered message decrypts to
      what was sent, one peer is exactly one root-key step ahead, and both stay on the schedule. */
  lemma EveryRunDecrypts(z: Session, run: seq<Action>)
    requires z.s.Lawful() && Distinct(z, 2) && ValidRun(z, Initial(z), run)
    ensures var y := RunFrom(z, Initial(z), run);
      && !y.crashed && DeliveredAsSent(y) && |y.peers| == 2
      && (y.peers[0].level == y.peers[1].level + 1 || y.peers[1].level == y.peers[0].level + 1)
      && OnSchedule(z, y.w, y.peers[0]) && OnSchedule(z, y.w, y.peers[1])
  {
    hide PeerInv, Distinct, SentWell, Execute, OnSchedule;
    InitialInv(z);
    RunKeeps(z, Initial(z), run);
    InvMeans(z, RunFrom(z, Initial(z), run));
  }

  /** Message e was made by this action: it carries its text, and names its origin and destination. */
  ghost predicate Made(a: Action, e: Sent) {
    && a.Send? && e.plaintext == a.plaintext
    && e.message.header.origin == a.origin && e.message.header.destination == a.destination
    && e.message.header.hopLimit == RATCHET_HOP_LIMIT
  }

  ghost predicate InWire(w: Wire, c: nat, i: nat, e: Sent) {
    c < |w.sent| && i < |w.sent[c]| && w.sent[c][i] == e
  }

  lemma MadeNow(z: Session, y: System, a: Action, c: nat, i: nat, e: Sent)
    requires z.s.Lawful() && Inv(z, y) && Ready(y) && Enabled(z, y, a) && InWire(Execute(z, y, a).w, c, i, e)
    ensures InWire(y.w, c, i, e) || Made(a, e)
  {
    hide Inv, EncryptAEAD, Decrypt, CanDecrypt, Lost, FreshKey, Suite.Lawful;
  }

  lemma {:induction false} MadeInRun(z: Session, y: System, run: seq<Action>, c: nat, i: nat, e: Sent)
    requires z.s.Lawful() && Inv(z, y) && ValidRun(z, y, run) && InWire(RunFrom(z, y, run).w, c, i, e)
    ensures InWire(y.w, c, i, e) || exists k :: 0 <= k < |run| && Made(run[k], e)
    decreases |run|
  {
    hide Inv, Execute, Enabled, Made;
    if run != [] {
      EnabledPossible(z, y, run[0]);
      var y1 := Execute(z, y, run[0]);
      StepKeeps(z, y, run[0]);
      MadeInRun(z, y1, run[1..], c, i, e);
      if InWire(y1.w, c, i, e) {
        MadeNow(z, y, run[0], c, i, e);
      } else {
        var k :| 0 <= k < |run[1..]| && Made(run[1..][k], e);
        assert Made(run[k + 1], e);
      }
    }
  }

  /** Every message of a run was made by one of its sends. */
  lemma EveryMessageMade(z: Session, run: seq<Action>, c: nat, i: nat)
    requires z.s.Lawful() && Distinct(z, 2) && ValidRun(z, Initial(z), run)
    requires var w := RunFrom(z, Initial(z), run).w; c < |w.sent| && i < |w.sent[c]|
    ensures var e := RunFrom(z, Initial(z), run).w.sent[c][i];
      exists k :: 0 <= k < |run| && Made(run[k], e)
  {
    hide Inv, Execute, Enabled, Distinct, Made;
    InitialInv(z);
    MadeInRun(z, Initial(z), run, c, i, RunFrom(z, Initial(z), run).w.sent[c][i]);
  }

  // ---- the delivery condition is exact ----

  /** Every message of chain c that is still out has its key stored. */
  ghost predicate AllStored(z: Session, y: System, c: nat, skipped: map<SkipKey, Bytes>) {
    forall j: nat :: InFlight(y, c, j) ==> Index(z, c, j) in skipped
  }

  lemma AllStoredIff(z: Session, y: System, c: nat, n: nat, w': Wire, level: nat, skipped: map<SkipKey, Bytes>)
    requires SkippedExactly(z, w', level, skipped) && Distinct(z, |w'.derived| + 1)
    requires c < |w'.derived| && c < |y.w.sent|
    requires forall j: nat :: InFlight(y, c, j) ==> (Pending(w', level, c, j) <==> j < n)
    requires forall j: nat :: n <= j < |y.w.sent[c]| ==> InFlight(y, c, j)
    ensures AllStored(z, y, c, skipped) <==> |y.w.sent[c]| <= n
  {
    hide Index, SkippedExactly, Distinct;
    forall j: nat | InFlight(y, c, j) ensures Index(z, c, j) in skipped <==> j < n {
      StoredIffPending(z, w', level, skipped, c, j);
    }
    if |y.w.sent[c]| > n {
      assert InFlight(y, c, |y.w.sent[c]| - 1);
    }
  }

  /** The wire once message i has opened the epoch of chain c. */
  ghost function WireAfter(w: Wire, x: Peer, c: nat, i: nat): (r: Wire)
    requires c < |w.derived|
    ensures |r.derived| == |w.derived| + 1
  {
    Mark(Derive(NewEpochWire(w, x, i), c, i + 1), c, i)
  }

  lemma PendingAfter(w: Wire, x: Peer, c: nat, d: nat, i: nat, j: nat)
    requires d + 2 == c == x.level < |w.derived|
    ensures Pending(WireAfter(w, x, c, i), c + 2, d, j) <==> j < Max(x.st.nr, i) && (d, j) !in w.delivered
  {
  }

  /** The state from which the first message of a new epoch is opened. */
  ghost function EpochOpened(z: Session, x: Peer, i: nat): State
    requires x.st.Valid()
  {
    Advance(z.s, x.st, z.s.pub(z.keys(x.level + 1)), i, z.keys(x.level + 2))
  }

  lemma AfterEpoch(z: Session, w: Wire, x: Peer, i: nat)
    requires AtNewEpoch(z, w, x)
    ensures Distinct(z, |WireAfter(w, x, x.level, i).derived| + 1)
    ensures SkippedExactly(z, WireAfter(w, x, x.level, i), x.level + 2, EpochOpened(z, x, i).skipped)
  {
    hide PeerInv, Distinct, Advance, SkippedExactly, Receiving;
    NewEpochReceiver(z, w, x, i);
    SkippedAfter(z, WireAfter(w, x, x.level, i), Consumed(z, EpochOpened(z, x, i), x.level, i), x.level + 2);
    DistinctMore(z, x.level + 2);
  }

  /** The messages of the old chain that are still out all keep a stored key across a new epoch
      exactly when the first message of that epoch is on time. */
  lemma OnTimeIsExact(z: Session, y: System, c: nat, d: nat, i: nat)
    requires z.s.Lawful() && Inv(z, y) && InFlight(y, c, i) && d + 2 == c == y.peers[c % 2].level
    requires FreshKey(z, c + 2)
    ensures y.peers[c % 2].st.Valid()
    ensures AllStored(z, y, d, EpochOpened(z, y.peers[c % 2], i).skipped)
      <==> OnTime(y.peers[c % 2].st, y.w.sent[c][i].message.header)
  {
    hide Inv, PeerInv, SentWell, Distinct, Index, EpochOpened, WireInv, SkippedExactly, AllStored, OnTime, WireAfter,
      Pending, AtNewEpoch, ReceiverChains;
    Parts(z, y, c, i);
    var x := y.peers[c % 2];
    AtNewEpochFrom(z, y, c, i);
    AfterEpoch(z, y.w, x, i);
    OnTimeKeeps(z, y.w, x, i);
    ReceivedBefore(z, y.w, x, d);
    forall j: nat ensures Pending(WireAfter(y.w, x, c, i), c + 2, d, j)
      <==> j < Max(x.st.nr, i) && (d, j) !in y.w.delivered
    {
      PendingAfter(y.w, x, c, d, i, j);
    }
    AllStoredIff(z, y, d, Max(x.st.nr, i), WireAfter(y.w, x, c, i), c + 2, EpochOpened(z, x, i).skipped);
  }

  /** The messages of the old chain that a new epoch loses are those from the number on at which the
      chain is closed. */
  lemma EpochLoses(z: Session, y: System, c: nat, i: nat, d: nat, j: nat)
    requires z.s.Lawful() && Inv(z, y) && Enabled(z, y, Deliver(c, i)) && InFlight(y, d, j)
    requires d + 2 == c == y.peers[c % 2].level
    ensures var y' := Execute(z, y, Deliver(c, i));
      && Ready(y') && d < |y'.w.sent|
      && (Lost(y', d, j) <==> j >= Max(y.peers[c % 2].st.nr, i))
  {
    hide Inv, Execute, PeerInv, SentWell, Distinct, Pending;
    Parts(z, y, c, i);
    ThreeCases(z, y, c, i);
    ReceivedSoFar(z, y.w, y.peers[c % 2]);
    NotPendingAhead(y.w, y.peers[c % 2].level, c, i);
    DeliverShape(z, y, c, i);
  }

  lemma NotPendingAhead(w: Wire, level: nat, c: nat, i: nat)
    requires level < c + 2
    ensures !Pending(w, level, c, i)
  {
  }

  /** A lost message derails the receiver when it comes: its old key is taken for that of a new epoch,
      and the ratchet steps back to it. */
  lemma LateMessageDerails(z: Session, st: State, c: nat, j: nat, l: nat, newKey: PrivateKey)
    requires z.s.Lawful() && st.Valid() && st.dhr == Some(z.s.pub(z.keys(l)))
    requires Fingerprint(z, c + 1) != Fingerprint(z, l)
    ensures IsNewEpoch(st, z.s.pub(z.keys(c + 1)))
    ensures var st' := Advance(z.s, st, z.s.pub(z.keys(c + 1)), j, newKey);
      && st'.dhr == Some(z.s.pub(z.keys(c + 1))) && st'.dhs == newKey && st'.ns == 0
      && st'.rk == z.s.kdfRK(z.s.kdfRK(st.rk, z.s.DH(st.dhs, z.s.pub(z.keys(c + 1)))).0,
                             z.s.DH(newKey, z.s.pub(z.keys(c + 1)))).0
  {
    SkipKeepsRoot(z.s, st, j);
    SkipKeepsRoot(z.s, DHStep(z.s, Skip(z.s, st, j), z.s.pub(z.keys(c + 1)), newKey), j);
  }

  /** A session goes on after a delivery exactly when the message was not lost. */
  lemma DeliveryKeepsIff(z: Session, y: System, c: nat, i: nat)
    requires z.s.Lawful() && Inv(z, y) && InFlight(y, c, i)
    requires c == y.peers[c % 2].level ==> FreshKey(z, c + 2)
    ensures Ready(y)
    ensures Inv(z, Execute(z, y, Deliver(c, i))) <==> !Lost(y, c, i)
  {
    hide Inv, Execute;
    Means(z, y);
    if Lost(y, c, i) {
      LostDerails(z, y, c, i);
    } else {
      StepKeeps(z, y, Deliver(c, i));
    }
  }

  lemma LostDerails(z: Session, y: System, c: nat, i: nat)
    requires z.s.Lawful() && Inv(z, y) && InFlight(y, c, i) && Ready(y) && Lost(y, c, i)
    ensures !Inv(z, Execute(z, y, Deliver(c, i)))
  {
    hide Inv, Fingerprint, Decrypt, CanDecrypt, Execute, StoredKey, DecodePoint;
    var x, y' := y.peers[c % 2], Execute(z, y, Deliver(c, i));
    LostMessage(z, y, c, i);
    if Inv(z, y') {
      Means(z, y');
      DeliveredTo(z, y, c, i);
      StepsBack(z, x.st, c, i, x.level - 1, y.w.sent[c][i].message, z.keys(x.level + 2));
      PeerAt(z, y', c % 2);
      SamePublic(z, c + 1, x.level - 1);
      assert false;
    }
  }

  /** A lost message comes under a key that is not the receiver's current one, and has no stored key. */
  lemma LostMessage(z: Session, y: System, c: nat, i: nat)
    requires z.s.Lawful() && Inv(z, y) && InFlight(y, c, i) && Ready(y) && Lost(y, c, i)
    ensures var x, m := y.peers[c % 2], y.w.sent[c][i].message;
      && x.st.Valid() && x.st.dhr == Some(z.s.pub(z.keys(x.level - 1)))
      && Fingerprint(z, c + 1) != Fingerprint(z, x.level - 1)
      && m.header.n == i && DecodePoint(z.s.curve, m.header.pubKey) == Some(z.s.pub(z.keys(c + 1)))
      && StoredKey(z.s, m.header) !in x.st.skipped
  {
    hide Inv, PeerInv, Distinct, WireInv, Index, Pending, ReceiverChains, Fingerprint, EncryptAEAD, Concat;
    var x := y.peers[c % 2];
    Parts(z, y, c, i);
    KeyOpens(z, y.w, c, i);
    PeerAt(z, y, c % 2);
    NotStored(z, y.w, x, c, i);
    Apart(z, |y.w.sent| + 1, c + 1, x.level - 1);
  }

  ghost predicate Decrypts(z: Session, x: Peer, m: RatchetMessage, x': Peer)
    requires z.s.Lawful()
  {
    var newKey := z.keys(x.level + 2);
    && x.st.Valid() && CanDecrypt(z.s, x.st, m.header, m.message, newKey)
    && x' == Peer(Decrypt(z.s, x.st, m.header, m.message, newKey).0, x.level)
  }

  lemma DeliveredTo(z: Session, y: System, c: nat, i: nat)
    requires z.s.Lawful() && Ready(y) && InFlight(y, c, i) && c != y.peers[c % 2].level
    requires !Execute(z, y, Deliver(c, i)).crashed
    ensures |Execute(z, y, Deliver(c, i)).peers| == 2
    ensures Decrypts(z, y.peers[c % 2], y.w.sent[c][i].message, Execute(z, y, Deliver(c, i)).peers[c % 2])
  {
    hide Receipt, Decrypt, CanDecrypt;
  }

  /** The remote key of a lost message becomes the current one. */
  lemma StepsBack(z: Session, st: State, c: nat, i: nat, l: nat, m: RatchetMessage, newKey: PrivateKey)
    requires z.s.Lawful() && st.Valid() && st.dhr == Some(z.s.pub(z.keys(l)))
    requires Fingerprint(z, c + 1) != Fingerprint(z, l) && m.header.n == i
    requires DecodePoint(z.s.curve, m.header.pubKey) == Some(z.s.pub(z.keys(c + 1)))
    requires StoredKey(z.s, m.header) !in st.skipped && CanDecrypt(z.s, st, m.header, m.message, newKey)
    ensures Decrypt(z.s, st, m.header, m.message, newKey).0.dhr == Some(z.s.pub(z.keys(c + 1)))
  {
    hide Advance, Decryptable, DecryptAEAD, Fingerprint, DecodePoint;
    LateMessageDerails(z, st, c, i, l, newKey);
  }

  lemma NotStored(z: Session, w: Wire, x: Peer, c: nat, i: nat)
    requires PeerInvAt(z, w, x) && Distinct(z, |w.sent| + 1) && c < |w.sent| && w.derived[c] <= i
    ensures Index(z, c, i) !in x.st.skipped
  {
    hide Root, ChainKey, SkippedExactly, Index, Distinct;
    StoredIffPending(z, w, x.level, x.st.skipped, c, i);
  }

  lemma Apart(z: Session, n: nat, i: nat, j: nat)
    requires Distinct(z, n) && i < j < n
    ensures Fingerprint(z, i) != Fingerprint(z, j)
  {
  }

  lemma SamePublic(z: Session, i: nat, j: nat)
    requires z.s.pub(z.keys(i)) == z.s.pub(z.keys(j))
    ensures Fingerprint(z, i) == Fingerprint(z, j)
  {
  }

  lemma {:induction false} SkipKeepsRoot(s: Suite, st: State, until: nat)
    requires st.Valid()
    ensures var r := Skip(s, st, until);
      r.rk == st.rk && r.dhs == st.dhs && r.dhr == st.dhr && r.ns == st.ns
    decreases until - st.nr
  {
    if st.ckr.Some? && st.nr < until {
      SkipKeepsRoot(s, SkipOne(s, st), until);
    }
  }

  lemma AtNewEpochFrom(z: Session, y: System, c: nat, i: nat)
    requires z.s.Lawful() && Inv(z, y) && InFlight(y, c, i) && c == y.peers[c % 2].level && FreshKey(z, c + 2)
    ensures AtNewEpoch(z, y.w, y.peers[c % 2])
  {
    hide PeerInv, Distinct, SentWell, Receiving;
    Parts(z, y, c, i);
    ThreeCases(z, y, c, i);
    if 2 <= c { IsReceiving(z, y.w, y.peers[c % 2]); }
  }

  lemma SkippedAfter(z: Session, w: Wire, st: State, level: nat)
    requires PeerInvAt(z, w, Peer(st, level))
    ensures SkippedExactly(z, w, level, st.skipped)
  {
    hide Root, ChainKey, SkippedExactly;
  }

  lemma ReceivedBefore(z: Session, w: Wire, x: Peer, d: nat)
    requires z.s.Lawful() && PeerInvAt(z, w, x) && WireInv(z, w) && d + 2 == x.level
    ensures w.derived[d] == x.st.nr
    ensures forall j: nat :: (d, j) in w.delivered ==> j < x.st.nr
  {
    hide Root, ChainKey, SkippedExactly, SentWell;
  }

  // ---- repeated messages ----

  /** The receiver of chain c, at number st.nr: stored keys are of smaller numbers. */
  ghost predicate OnChain(z: Session, c: nat, st: State) {
    && st.dhr == Some(z.s.pub(z.keys(c + 1))) && st.ckr == Some(ChainKey(z, c, st.nr))
    && forall k: nat :: st.nr <= k ==> Index(z, c, k) !in st.skipped
  }

  /** Each receiver of a session is one. */
  lemma ReceiverOnChain(z: Session, w: Wire, x: Peer)
    requires PeerInvAt(z, w, x) && Distinct(z, |w.sent| + 1) && 2 <= x.level
    ensures OnChain(z, x.level - 2, x.st)
  {
    hide Root, ChainKey, SkippedExactly, Index, Distinct;
    var c := x.level - 2;
    forall k: nat | x.st.nr <= k ensures Index(z, c, k) !in x.st.skipped {
      StoredIffPending(z, w, x.level, x.st.skipped, c, k);
    }
  }

  /** It can still open message k of the chain: the key is stored or yet to be derived. */
  ghost predicate HasKey(z: Session, c: nat, st: State, k: nat) {
    st.nr <= k || (Index(z, c, k) in st.skipped && st.skipped[Index(z, c, k)] == MessageKey(z, c, k))
  }

  lemma CurrentIndex(z: Session, c: nat, st: State)
    requires OnChain(z, c, st)
    ensures GetKeyFromRatchet(z.s, st.dhr.value, st.nr) == Index(z, c, st.nr)
  {
  }

  lemma {:induction false} SkipOnChain(z: Session, c: nat, st: State, until: nat)
    requires OnChain(z, c, st)
    ensures var r, n := Skip(z.s, st, until), Max(st.nr, until);
      && r == st.(nr := n, ckr := Some(ChainKey(z, c, n)), skipped := r.skipped)
      && OnChain(z, c, r)
      && (forall k: nat :: HasKey(z, c, st, k) ==> HasKey(z, c, r, k))
      && (until <= st.nr ==> r == st)
    decreases until - st.nr
  {
    hide Fingerprint;
    if st.nr < until {
      var st1 := SkipOne(z.s, st);
      CurrentIndex(z, c, st);
      forall k: nat | HasKey(z, c, st, k) ensures HasKey(z, c, st1, k) {}
      assert OnChain(z, c, st1);
      SkipOnChain(z, c, st1, until);
    }
  }

  /** A message of the current chain without a stored key takes the next key from its number on: its own
      exactly when its number has not been passed. If it has, as for a repeated message, one key is taken
      and not stored, so the next message in order, and no other, can no longer be opened. */
  lemma RepeatTakesKey(z: Session, c: nat, st: State, header: RatchetHeader, m: RatchetCipher, newKey: PrivateKey)
    requires z.s.Lawful() && st.Valid() && OnChain(z, c, st)
    requires header.pubKey == z.s.PubBytes(z.keys(c + 1)) && Index(z, c, header.n) !in st.skipped
    requires CanDecrypt(z.s, st, header, m, newKey)
    ensures var (st', r) := Decrypt(z.s, st, header, m, newKey);
      var n := Max(st.nr, header.n);
      && Decryptable(z.s, MessageKey(z, c, n), m, header)
      && r == DecryptAEAD(z.s, MessageKey(z, c, n), m, header)
      && OnChain(z, c, st') && st'.nr == n + 1
      && (forall k: nat :: k != header.n && HasKey(z, c, st, k) ==>
            (HasKey(z, c, st', k) <==> !(header.n < st.nr && k == st.nr)))
  {
    hide Index, ChainKey, MessageKey, HasKey, Skip, Decryptable, DecryptAEAD, DecodePoint, OnChain, CanReceive, Receive;
    var st1 := Skip(z.s, st, header.n);
    CurrentHeader(z, c, st, header);
    SkipOnChain(z, c, st, header.n);
    CurrentReceive(z, c, st, header, m, newKey);
    KeysAfter(z, c, st, header.n);
  }

  lemma CurrentHeader(z: Session, c: nat, st: State, header: RatchetHeader)
    requires z.s.Lawful() && OnChain(z, c, st) && header.pubKey == z.s.PubBytes(z.keys(c + 1))
    ensures DecodePoint(z.s.curve, header.pubKey) == Some(z.s.pub(z.keys(c + 1)))
    ensures StoredKey(z.s, header) == Index(z, c, header.n)
    ensures !IsNewEpoch(st, z.s.pub(z.keys(c + 1)))
  {
    PubBytesDecode(z.s, z.keys(c + 1));
  }

  lemma CurrentReceive(z: Session, c: nat, st: State, header: RatchetHeader, m: RatchetCipher, newKey: PrivateKey)
    requires z.s.Lawful() && st.Valid() && OnChain(z, c, st)
    requires DecodePoint(z.s.curve, header.pubKey) == Some(z.s.pub(z.keys(c + 1)))
    requires !IsNewEpoch(st, z.s.pub(z.keys(c + 1))) && CanReceive(z.s, st, header, m, newKey)
    ensures var n := Max(st.nr, header.n);
      && Decryptable(z.s, MessageKey(z, c, n), m, header)
      && Receive(z.s, st, header, m, newKey)
           == (Consumed(z, Skip(z.s, st, header.n), c, n), DecryptAEAD(z.s, MessageKey(z, c, n), m, header))
  {
    hide HasKey, Skip, Decryptable, DecryptAEAD, DecodePoint, OnChain, ChainKey, MessageKey, IsNewEpoch,
      Suite.Lawful;
    SkipOnChain(z, c, st, header.n);
    KeyStep(z, c, Max(st.nr, header.n));
  }

  lemma KeyStep(z: Session, c: nat, n: nat)
    ensures z.s.KdfCK(ChainKey(z, c, n)) == (ChainKey(z, c, n + 1), MessageKey(z, c, n))
  {
  }

  lemma KeysAfter(z: Session, c: nat, st: State, number: nat)
    requires OnChain(z, c, st)
    ensures var n := Max(st.nr, number);
      var st' := Consumed(z, Skip(z.s, st, number), c, n);
      && OnChain(z, c, st') && st'.nr == n + 1
      && (forall k: nat :: k != number && HasKey(z, c, st, k) ==>
            (HasKey(z, c, st', k) <==> !(number < st.nr && k == st.nr)))
  {
    hide ChainKey, MessageKey, Skip, Fingerprint;
    SkipOnChain(z, c, st, number);
  }

  // ---- a run that loses a message ----

  /** The sizes of a system: messages sent and keys derived per chain, and both levels. */
  ghost predicate Shape(z: Session, y: System, sent: seq<nat>, derived: seq<nat>, delivered: set<(nat, nat)>,
                        even: nat, odd: nat)
    requires z.s.Lawful()
  {
    && Inv(z, y) && Ready(y) && |y.w.sent| == |sent| && (forall c :: 0 <= c < |sent| ==> |y.w.sent[c]| == sent[c])
    && y.w.derived == derived && y.w.delivered == delivered
    && y.peers[0].level == even && y.peers[1].level == odd
  }

  lemma SendShape(z: Session, y: System, a: Action, sent: seq<nat>, derived: seq<nat>,
                  delivered: set<(nat, nat)>, even: nat, odd: nat)
    requires z.s.Lawful() && Shape(z, y, sent, derived, delivered, even, odd) && a.Send? && a.party < 2
    requires var l := if a.party == 0 then even else odd; 1 <= l
    ensures var l := if a.party == 0 then even else odd;
      && 1 <= l <= |sent| && Enabled(z, y, a) && Possible(y, a)
      && Shape(z, Execute(z, y, a), sent[l - 1 := sent[l - 1] + 1], derived, delivered, even, odd)
  {
    hide PeerInv, SentWell, Distinct, Inv, Encrypt;
    SendLevel(z, y, a.party);
    StepKeeps(z, y, a);
    Means(z, Execute(z, y, a));
  }

  lemma SendLevel(z: Session, y: System, party: nat)
    requires z.s.Lawful() && Inv(z, y) && party < 2 && 1 <= y.peers[party].level
    ensures Ready(y)
    ensures y.peers[party].st.cks.Some? && y.peers[party].level <= |y.w.sent|
  {
    hide SentWell, Distinct, SkippedExactly, Root, ChainKey;
  }

  lemma DeliverShape(z: Session, y: System, c: nat, i: nat)
    requires z.s.Lawful() && Inv(z, y) && Enabled(z, y, Deliver(c, i))
    ensures var y', x := Execute(z, y, Deliver(c, i)), y.peers[c % 2];
      && Inv(z, y') && Ready(y') && y'.w == Receipt(y.w, x, c, i, Pending(y.w, x.level, c, i))
      && y'.peers[1 - c % 2] == y.peers[1 - c % 2]
      && y'.peers[c % 2].level == if c == x.level then x.level + 2 else x.level
  {
    hide PeerInv, SentWell, Distinct, SkippedExactly, Inv, Receipt, Index, Decrypt, CanDecrypt, Pending, WireInv;
    StepKeeps(z, y, Deliver(c, i));
    Parts(z, y, c, i);
    ThreeCases(z, y, c, i);
    KeyOpens(z, y.w, c, i);
    Means(z, Execute(z, y, Deliver(c, i)));
  }

  lemma Means(z: Session, y: System)
    requires z.s.Lawful() && Inv(z, y)
    ensures !y.crashed && Ready(y) && DeliveredAsSent(y)
  {
  }

  lemma EnabledPossible(z: Session, y: System, a: Action)
    requires Ready(y) && Enabled(z, y, a)
    ensures Possible(y, a)
  {
  }

  lemma {:induction false} RunExtends(z: Session, y: System, run: seq<Action>, a: Action)
    requires z.s.Lawful() && Inv(z, y) && ValidRun(z, y, run)
    requires Ready(RunFrom(z, y, run)) && Enabled(z, RunFrom(z, y, run), a)
    ensures ValidRun(z, y, run + [a]) && RunFrom(z, y, run + [a]) == Execute(z, RunFrom(z, y, run), a)
    decreases |run|
  {
    hide Execute, Enabled, Possible, PeerInv, SentWell, Distinct;
    if run == [] {
      assert (run + [a])[1..] == [];
    } else {
      EnabledPossible(z, y, run[0]);
      StepKeeps(z, y, run[0]);
      RunExtends(z, Execute(z, y, run[0]), run[1..], a);
      assert (run + [a])[1..] == run[1..] + [a];
    }
  }

  /** Two messages, of which the first is answered, and then the first of the next chain of the same
      sender overtakes the second. */
  function LossyRun(p: Bytes): seq<Action> {
    [Send(1, p, [], [], []), Send(1, p, [], [], []), Deliver(0, 0),
     Send(0, p, [], [], []), Deliver(1, 0), Send(1, p, [], [], []), Deliver(2, 0)]
  }

  /** The run goes through, but the message overtaken is lost. */
  lemma LossyRunLoses(z: Session, p: Bytes)
    requires z.s.Lawful() && Distinct(z, 5)
    ensures ValidRun(z, Initial(z), LossyRun(p))
    ensures var y := RunFrom(z, Initial(z), LossyRun(p));
      && Ready(y) && !y.crashed && (2, 0) in y.w.delivered
      && InFlight(y, 0, 1) && Lost(y, 0, 1) && y.peers[0].st.dhr == Some(z.s.pub(z.keys(3)))
  {
    hide Inv, Execute, PeerInv, SentWell, Enabled, Possible, Receipt;
    var y0 := Initial(z);
    InitialInv(z);
    var s, a, b := Send(1, p, [], [], []), Send(0, p, [], [], []), Deliver(0, 0);
    var y1 := FirstHalf(z, p);
    SendShape(z, y1, a, [2, 0], [1, 0], {(0, 0)}, 2, 1);
    var y2 := Execute(z, y1, a);
    DeliverSecond(z, y2);
    var y3 := Execute(z, y2, Deliver(1, 0));
    SendShape(z, y3, s, [2, 1, 0], [1, 1, 0], {(0, 0), (1, 0)}, 2, 3);
    var y4 := Execute(z, y3, s);
    DeliverThird(z, y4);
    RunExtends(z, y0, [s, s, b], a);
    RunExtends(z, y0, [s, s, b] + [a], Deliver(1, 0));
    RunExtends(z, y0, [s, s, b] + [a] + [Deliver(1, 0)], s);
    RunExtends(z, y0, [s, s, b] + [a] + [Deliver(1, 0)] + [s], Deliver(2, 0));
    assert LossyRun(p) == [s, s, b] + [a] + [Deliver(1, 0)] + [s] + [Deliver(2, 0)];
    Means(z, Execute(z, y4, Deliver(2, 0)));
  }

  lemma FirstHalf(z: Session, p: Bytes) returns (y: System)
    requires z.s.Lawful() && Distinct(z, 4)
    ensures var s := Send(1, p, [], [], []);
      ValidRun(z, Initial(z), [s, s, Deliver(0, 0)]) && y == RunFrom(z, Initial(z), [s, s, Deliver(0, 0)])
    ensures Shape(z, y, [2, 0], [1, 0], {(0, 0)}, 2, 1)
  {
    hide Inv, Execute, PeerInv, SentWell, Enabled, Possible;
    var y0, s := Initial(z), Send(1, p, [], [], []);
    InitialInv(z);
    SendShape(z, y0, s, [0], [0], {}, 0, 1);
    var y1 := Execute(z, y0, s);
    SendShape(z, y1, s, [1], [0], {}, 0, 1);
    var y2 := Execute(z, y1, s);
    DeliverFirst(z, y2);
    y := Execute(z, y2, Deliver(0, 0));
    RunExtends(z, y0, [], s);
    assert [] + [s] == [s];
    RunExtends(z, y0, [s], s);
    RunExtends(z, y0, [s] + [s], Deliver(0, 0));
    assert [s] + [s] + [Deliver(0, 0)] == [s, s, Deliver(0, 0)];
  }

  lemma DeliverFirst(z: Session, y: System)
    requires z.s.Lawful() && Distinct(z, 4) && Shape(z, y, [2], [0], {}, 0, 1)
    ensures Enabled(z, y, Deliver(0, 0)) && Possible(y, Deliver(0, 0))
    ensures Shape(z, Execute(z, y, Deliver(0, 0)), [2, 0], [1, 0], {(0, 0)}, 2, 1)
  {
    hide Inv, Execute, SentWell;
    PeerAt(z, y, 0);
    DeliverShape(z, y, 0, 0);
  }

  lemma DeliverSecond(z: Session, y: System)
    requires z.s.Lawful() && Distinct(z, 4) && Shape(z, y, [2, 1], [1, 0], {(0, 0)}, 2, 1)
    ensures Enabled(z, y, Deliver(1, 0)) && Possible(y, Deliver(1, 0))
    ensures Shape(z, Execute(z, y, Deliver(1, 0)), [2, 1, 0], [1, 1, 0], {(0, 0), (1, 0)}, 2, 3)
  {
    hide Inv, Execute, SentWell;
    PeerAt(z, y, 1);
    DeliverShape(z, y, 1, 0);
  }

  lemma PeerAt(z: Session, y: System, k: nat)
    requires z.s.Lawful() && Inv(z, y) && k < 2
    ensures |y.peers| == 2 && |y.w.derived| == |y.w.sent|
    ensures var x := y.peers[k];
      && (x.level < 2 ==> x.st.ckr.None? && x.st.nr == 0)
      && (x.level >= 1 ==> x.st.dhr == Some(z.s.pub(z.keys(x.level - 1))))
      && (x.level >= 2 ==> x.level <= |y.w.sent| + 1 && x.st.ckr.Some? && x.st.nr == y.w.derived[x.level - 2])
  {
    hide Root, ChainKey, SkippedExactly, Distinct, SentWell;
  }

  /** The third delivery opens an epoch off time. */
  lemma DeliverThird(z: Session, y: System)
    requires z.s.Lawful() && Distinct(z, 5) && Shape(z, y, [2, 1, 1], [1, 1, 0], {(0, 0), (1, 0)}, 2, 3)
    ensures Enabled(z, y, Deliver(2, 0)) && Possible(y, Deliver(2, 0))
    ensures !OnTime(y.peers[0].st, y.w.sent[2][0].message.header)
    ensures var y' := Execute(z, y, Deliver(2, 0));
      && Shape(z, y', [2, 1, 1, 0], [1, 1, 1, 0], {(0, 0), (1, 0), (2, 0)}, 4, 3)
      && y'.peers[0].st.dhr == Some(z.s.pub(z.keys(3)))
  {
    hide Inv, Execute, PeerInv;
    PeerAt(z, y, 0);
    Parts(z, y, 2, 0);
    DeliverShape(z, y, 2, 0);
    PeerAt(z, Execute(z, y, Deliver(2, 0)), 0);
  }

  // ---- the first exchange of a session ----

  /** The initiator's first message opens at the responder. */
  lemma FirstExchange(z: Session, a: Action)
    requires z.s.Lawful() && Distinct(z, 3) && a.Send? && a.party == 1
    ensures ValidRun(z, Initial(z), [a, Deliver(0, 0)])
    ensures var y := RunFrom(z, Initial(z), [a, Deliver(0, 0)]);
      var (st, m) := Encrypt(z.s, SenderState(z.s, z.sk, z.s.pub(z.keys(0)), z.keys(1)),
                             a.plaintext, a.origin, a.destination, a.ad);
      && |y.peers| == 2 && y.peers[1].st == st
      && CanDecrypt(z.s, ReceiverState(z.sk, z.keys(0)), m.header, m.message, z.keys(2))
      && Decrypt(z.s, ReceiverState(z.sk, z.keys(0)), m.header, m.message, z.keys(2))
           == (y.peers[0].st, Some(a.plaintext))
  {
    hide Inv, PeerInv, SentWell, Enabled, Possible, Encrypt, Decrypt, CanDecrypt;
    var y0 := Initial(z);
    InitialInv(z);
    SendShape(z, y0, a, [0], [0], {}, 0, 1);
    var y1 := Execute(z, y0, a);
    FirstDeliverable(z, y1);
    DeliverShape(z, y1, 0, 0);
    var y2 := Execute(z, y1, Deliver(0, 0));
    RunExtends(z, y0, [], a);
    assert [] + [a] == [a];
    RunExtends(z, y0, [a], Deliver(0, 0));
    assert [a] + [Deliver(0, 0)] == [a, Deliver(0, 0)];
    Means(z, y2);
    assert y2.log[0].plaintext == Some(a.plaintext);
  }

  lemma FirstDeliverable(z: Session, y: System)
    requires z.s.Lawful() && Distinct(z, 3) && Shape(z, y, [1], [0], {}, 0, 1)
    ensures Enabled(z, y, Deliver(0, 0)) && Possible(y, Deliver(0, 0))
  {
    hide Inv, Execute, SentWell;
    PeerAt(z, y, 0);
  }
}
