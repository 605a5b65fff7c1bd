/** adssignal/adsDoubleRatchet.go: one party's ratchet. Each operation is given twice, as a
    function on the values of the fields and as the method that updates them in place. Key
    generation is a parameter; header.HopLimit is the constant of the code. */
module Ratchet {
  import opened Basics
  import opened Bytes
  import opened PointCodec
  import opened Primitives
  import opened Aead

  const RATCHET_HOP_LIMIT := 10

  datatype RatchetMessage = RatchetMessage(header: RatchetHeader, message: RatchetCipher)

  /** The index of a skipped key: the fingerprint of a ratchet key with a message number. The code
      writes the pair as one hex string, the counter on its 8 first bytes. */
  type SkipKey = (Bytes, nat)

  datatype State = State(
    dhs: PrivateKey, dhr: Option<Point>, rk: Bytes, cks: Option<Bytes>, ckr: Option<Bytes>,
    ns: nat, nr: nat, pn: nat, skipped: map<SkipKey, Bytes>)
  {
    /** A receiving chain only exists for a known remote key. */
    predicate Valid() {
      ckr.Some? ==> dhr.Some?
    }
  }

  function GetKeyFromRatchet(s: Suite, q: Point, n: nat): SkipKey {
    (s.sha256(EncodePoint(s.curve, q)), n)
  }

  // ---- the operations as functions ----

  function SenderState(s: Suite, sk: Bytes, remote: Point, newKey: PrivateKey): State {
    var (rk, cks) := s.kdfRK(sk, s.DH(newKey, remote));
    State(newKey, Some(remote), rk, Some(cks), None, 0, 0, 0, map[])
  }

  function ReceiverState(sk: Bytes, d: PrivateKey): State {
    State(d, None, sk, None, None, 0, 0, 0, map[])
  }

  function Encrypt(s: Suite, st: State, plaintext: Bytes, origin: Bytes, destination: Bytes, ad: Bytes)
    : (State, RatchetMessage)
    requires s.Lawful() && st.cks.Some?
  {
    var (cks, mk) := s.KdfCK(st.cks.value);
    var header := RatchetHeader(s.PubBytes(st.dhs), st.pn, st.ns, origin, destination, RATCHET_HOP_LIMIT);
    (st.(cks := Some(cks), ns := st.ns + 1),
     RatchetMessage(header, EncryptAEAD(s, mk, plaintext, Concat(s, ad, header))))
  }

  /** Derives the next key of the receiving chain and stores it. */
  function SkipOne(s: Suite, st: State): State
    requires st.Valid() && st.ckr.Some?
  {
    var (ckr, mk) := s.KdfCK(st.ckr.value);
    st.(ckr := Some(ckr), skipped := st.skipped[GetKeyFromRatchet(s, st.dhr.value, st.nr) := mk],
        nr := st.nr + 1)
  }

  /** Derives and stores the keys of the receiving chain up to, not including, number until. */
  function Skip(s: Suite, st: State, until: nat): (r: State)
    requires st.Valid()
    ensures r.Valid() && r.dhr == st.dhr && r.ckr.Some? == st.ckr.Some?
    decreases until - st.nr
  {
    if st.ckr.None? || until <= st.nr then st else Skip(s, SkipOne(s, st), until)
  }

  /** Both root-key steps: one against the new remote key, one with the new own key. */
  function DHStep(s: Suite, st: State, remote: Point, newKey: PrivateKey): State {
    var (rk1, ckr) := s.kdfRK(st.rk, s.DH(st.dhs, remote));
    var (rk2, cks) := s.kdfRK(rk1, s.DH(newKey, remote));
    st.(pn := st.ns, ns := 0, nr := 0, dhr := Some(remote), ckr := Some(ckr), dhs := newKey, rk := rk2,
        cks := Some(cks))
  }

  predicate IsNewEpoch(st: State, remote: Point) {
    st.dhr.None? || !ComparePoints(remote, st.dhr.value)
  }

  /** A message under a new remote key first closes the old chain at number n. */
  function Epoch(s: Suite, st: State, remote: Point, n: nat, newKey: PrivateKey): (r: State)
    requires st.Valid()
    ensures r.Valid()
  {
    if IsNewEpoch(st, remote) then DHStep(s, Skip(s, st, n), remote, newKey) else st
  }

  /** The state from which the key of message n under the remote key is derived. */
  function Advance(s: Suite, st: State, remote: Point, n: nat, newKey: PrivateKey): (r: State)
    requires st.Valid()
    ensures r.Valid()
  {
    Skip(s, Epoch(s, st, remote, n, newKey), n)
  }

  /** The state after a key is consumed, and that key. */
  function NextKey(s: Suite, st: State): (State, Bytes)
    requires st.ckr.Some?
  {
    var (ckr, mk) := s.KdfCK(st.ckr.value);
    (st.(ckr := Some(ckr), nr := st.nr + 1), mk)
  }

  /** The key under which a message is opened when no stored key applies. */
  ghost predicate CanReceive(s: Suite, st: State, header: RatchetHeader, c: RatchetCipher, newKey: PrivateKey)
    requires s.Lawful() && st.Valid()
  {
    && DecodePoint(s.curve, header.pubKey).Some?
    && var st' := Advance(s, st, DecodePoint(s.curve, header.pubKey).value, header.n, newKey);
       st'.ckr.Some? && Decryptable(s, NextKey(s, st').1, c, header)
  }

  function Receive(s: Suite, st: State, header: RatchetHeader, c: RatchetCipher, newKey: PrivateKey)
    : (State, Option<Bytes>)
    requires s.Lawful() && st.Valid() && CanReceive(s, st, header, c, newKey)
  {
    var remote := DecodePoint(s.curve, header.pubKey).value;
    var (st', mk) := NextKey(s, Advance(s, st, remote, header.n, newKey));
    (st', DecryptAEAD(s, mk, c, header))
  }

  function StoredKey(s: Suite, header: RatchetHeader): SkipKey
    requires s.Lawful() && DecodePoint(s.curve, header.pubKey).Some?
  {
    GetKeyFromRatchet(s, DecodePoint(s.curve, header.pubKey).value, header.n)
  }

  function Forget(st: State, key: SkipKey): State {
    st.(skipped := st.skipped - {key})
  }

  /** Everything RatchetDecrypt dereferences on the way is there. */
  ghost predicate CanDecrypt(s: Suite, st: State, header: RatchetHeader, c: RatchetCipher, newKey: PrivateKey)
    requires s.Lawful() && st.Valid()
  {
    && DecodePoint(s.curve, header.pubKey).Some?
    && var key := StoredKey(s, header);
       if key !in st.skipped then CanReceive(s, st, header, c, newKey) else
       && Decryptable(s, st.skipped[key], c, header)
       && (DecryptAEAD(s, st.skipped[key], c, header).None? ==>
             CanReceive(s, Forget(st, key), header, c, newKey))
  }

  /** A stored key is used up even when it does not open the message. */
  function Decrypt(s: Suite, st: State, header: RatchetHeader, c: RatchetCipher, newKey: PrivateKey)
    : (State, Option<Bytes>)
    requires s.Lawful() && st.Valid() && CanDecrypt(s, st, header, c, newKey)
  {
    var key := StoredKey(s, header);
    if key !in st.skipped then Receive(s, st, header, c, newKey) else
    var r := DecryptAEAD(s, st.skipped[key], c, header);
    if r.Some? then (Forget(st, key), r) else Receive(s, Forget(st, key), header, c, newKey)
  }

  /** With no stored key, or one that does not open the message, decryption goes on from the
      state without that key. */
  lemma FallsThrough(s: Suite, st: State, header: RatchetHeader, c: RatchetCipher, newKey: PrivateKey)
    requires s.Lawful() && st.Valid() && CanDecrypt(s, st, header, c, newKey)
    requires var key := StoredKey(s, header);
      key in st.skipped ==> DecryptAEAD(s, st.skipped[key], c, header).None?
    ensures var st1 := Forget(st, StoredKey(s, header));
      && CanReceive(s, st1, header, c, newKey)
      && Decrypt(s, st, header, c, newKey) == Receive(s, st1, header, c, newKey)
  {
    var key := StoredKey(s, header);
    if key !in st.skipped {
      assert st.skipped - {key} == st.skipped;
    }
  }

  lemma {:induction false} SkipMovesOn(s: Suite, st: State, until: nat)
    requires st.Valid()
    ensures Skip(s, st, until).nr >= st.nr
    decreases until - st.nr
  {
    if st.ckr.Some? && st.nr < until {
      SkipMovesOn(s, SkipOne(s, st), until);
    }
  }

  /** A message that is rejected has nevertheless moved the ratchet: to a later number of the receiving
      chain, or to another remote key. */
  lemma RejectedMoves(s: Suite, st: State, header: RatchetHeader, c: RatchetCipher, newKey: PrivateKey)
    requires s.Lawful() && st.Valid() && CanDecrypt(s, st, header, c, newKey)
    requires Decrypt(s, st, header, c, newKey).1.None?
    ensures var st' := Decrypt(s, st, header, c, newKey).0;
      st'.nr > st.nr || st'.dhr != st.dhr
  {
    hide Skip, DecryptAEAD, Decryptable, DecodePoint, StoredKey;
    var st1, remote := Forget(st, StoredKey(s, header)), DecodePoint(s.curve, header.pubKey).value;
    FallsThrough(s, st, header, c, newKey);
    SkipMovesOn(s, Epoch(s, st1, remote, header.n, newKey), header.n);
  }

  // ---- the operations in place ----

  class DRatchetState {
    var peer: Bytes
    var DHs: PrivateKey
    var DHr: Option<Point>
    var RK: Bytes
    var CKs: Option<Bytes>
    var CKr: Option<Bytes>
    var Ns: nat
    var Nr: nat
    var PN: nat
    var MKSKIPPED: map<SkipKey, Bytes>

    function View(): State
      reads this
    {
      State(DHs, DHr, RK, CKs, CKr, Ns, Nr, PN, MKSKIPPED)
    }

    constructor SInitializeRatchet(s: Suite, sk: Bytes, pubKey: Point, peer: Bytes, newKey: PrivateKey)
      ensures View() == SenderState(s, sk, pubKey, newKey) && this.peer == peer
    {
      this.peer := peer;
      DHs := newKey;
      DHr := Some(pubKey);
      var (rk, cks) := s.kdfRK(sk, s.DH(newKey, pubKey));
      RK, CKs := rk, Some(cks);
      CKr := None;
      Ns, Nr, PN := 0, 0, 0;
      MKSKIPPED := map[];
    }

    constructor RInitializeRatchet(sk: Bytes, dhPair: PrivateKey)
      ensures View() == ReceiverState(sk, dhPair) && peer == []
    {
      peer := [];
      DHs := dhPair;
      DHr := None;
      RK, CKs, CKr := sk, None, None;
      Ns, Nr, PN := 0, 0, 0;
      MKSKIPPED := map[];
    }

    method RatchetEncrypt(s: Suite, plaintext: Bytes, origin: Bytes, destination: Bytes, ad: Bytes)
      returns (m: RatchetMessage)
      requires s.Lawful() && View().cks.Some?
      modifies this
      ensures (View(), m) == Encrypt(s, old(View()), plaintext, origin, destination, ad)
      ensures m.header.origin == origin && m.header.destination == destination
      ensures m.header.hopLimit == RATCHET_HOP_LIMIT && peer == old(peer)
    {
      var (cks, mk) := s.KdfCK(CKs.value);
      CKs := Some(cks);
      var ratchetHeader := RatchetHeader(s.PubBytes(DHs), PN, Ns, origin, destination, RATCHET_HOP_LIMIT);
      var concatADH := Concat(s, ad, ratchetHeader);
      var ratchetCipher := EncryptAEAD(s, mk, plaintext, concatADH);
      Ns := Ns + 1;
      m := RatchetMessage(ratchetHeader, ratchetCipher);
    }

    method SkipMessageKeys(s: Suite, until: nat)
      requires View().Valid()
      modifies this
      ensures View() == Skip(s, old(View()), until) && peer == old(peer)
    {
      if CKr.Some? {
        while Nr < until
          invariant CKr.Some? && View().Valid() && peer == old(peer)
          invariant Skip(s, View(), until) == Skip(s, old(View()), until)
        {
          ghost var before := View();
          var (ckr, mk) := s.KdfCK(CKr.value);
          CKr := Some(ckr);
          MKSKIPPED := MKSKIPPED[GetKeyFromRatchet(s, DHr.value, Nr) := mk];
          Nr := Nr + 1;
          assert View() == SkipOne(s, before);
        }
      }
    }

    method DHRatchet(s: Suite, remote: Point, newKey: PrivateKey)
      modifies this
      ensures View() == DHStep(s, old(View()), remote, newKey) && peer == old(peer)
    {
      PN := Ns;
      Ns := 0;
      Nr := 0;
      DHr := Some(remote);
      var (rk1, ckr) := s.kdfRK(RK, s.DH(DHs, remote));
      RK, CKr := rk1, Some(ckr);
      DHs := newKey;
      var (rk2, cks) := s.kdfRK(RK, s.DH(DHs, remote));
      RK, CKs := rk2, Some(cks);
    }

    method TrySkippedMessageKeys(s: Suite, header: RatchetHeader, c: RatchetCipher)
      returns (plaintext: Option<Bytes>)
      requires s.Lawful() && DecodePoint(s.curve, header.pubKey).Some?
      requires StoredKey(s, header) in MKSKIPPED ==>
        Decryptable(s, MKSKIPPED[StoredKey(s, header)], c, header)
      modifies this
      ensures var key := StoredKey(s, header);
        && View() == Forget(old(View()), key) && peer == old(peer)
        && plaintext == if key in old(MKSKIPPED) then DecryptAEAD(s, old(MKSKIPPED)[key], c, header) else None
    {
      var key := GetKeyFromRatchet(s, DecodePoint(s.curve, header.pubKey).value, header.n);
      if key in MKSKIPPED {
        var mk := MKSKIPPED[key];
        MKSKIPPED := MKSKIPPED - {key};
        return DecryptAEAD(s, mk, c, header);
      }
      assert MKSKIPPED - {key} == MKSKIPPED;
      return None;
    }

    method RatchetDecrypt(s: Suite, header: RatchetHeader, c: RatchetCipher, newKey: PrivateKey)
      returns (plaintext: Option<Bytes>)
      requires s.Lawful() && View().Valid() && CanDecrypt(s, View(), header, c, newKey)
      modifies this
      ensures (View(), plaintext) == Decrypt(s, old(View()), header, c, newKey) && peer == old(peer)
    {
      plaintext := TrySkippedMessageKeys(s, header, c);
      if plaintext.Some? {
        return;
      }
      FallsThrough(s, old(View()), header, c, newKey);
      plaintext := ReceiveNext(s, header, c, newKey);
    }

    /** The part of RatchetDecrypt that derives a new key; the two steps below are inlined in it. */
    method ReceiveNext(s: Suite, header: RatchetHeader, c: RatchetCipher, newKey: PrivateKey)
      returns (plaintext: Option<Bytes>)
      requires s.Lawful() && View().Valid() && CanReceive(s, View(), header, c, newKey)
      modifies this
      ensures (View(), plaintext) == Receive(s, old(View()), header, c, newKey) && peer == old(peer)
    {
      var rcvPubKey := DecodePoint(s.curve, header.pubKey).value;
      EnterEpoch(s, rcvPubKey, header.n, newKey);
      SkipMessageKeys(s, header.n);
      var mk := TakeKey(s);
      plaintext := DecryptAEAD(s, mk, c, header);
    }

    method EnterEpoch(s: Suite, rcvPubKey: Point, n: nat, newKey: PrivateKey)
      requires View().Valid()
      modifies this
      ensures View() == Epoch(s, old(View()), rcvPubKey, n, newKey) && peer == old(peer)
    {
      if DHr.None? || !ComparePoints(rcvPubKey, DHr.value) {
        SkipMessageKeys(s, n);
        DHRatchet(s, rcvPubKey, newKey);
      }
    }

    method TakeKey(s: Suite) returns (mk: Bytes)
      requires CKr.Some?
      modifies this
      ensures (View(), mk) == NextKey(s, old(View())) && peer == old(peer)
    {
      var (ckr, key) := s.KdfCK(CKr.value);
      CKr := Some(ckr);
      Nr := Nr + 1;
      mk := key;
    }
  }
}
