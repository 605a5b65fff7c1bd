/** adssignal/adsX3DH.go: key agreement, and the first message of a ratchet session. */
module X3dh {
  import opened Basics
  import opened Bytes
  import opened PointCodec
  import opened Primitives
  import opened Ratchet
  import opened RatchetSession

  const COLON: byte := 0x3a
  const DEFAULT_OPKN := 10

  datatype Identity = Identity(ik: PrivateKey, spk: PrivateKey, sign: Bytes, opk: seq<PrivateKey>)

  datatype RemoteIdentity = RemoteIdentity(ik: Point, spk: Point, sign: Bytes, opk: seq<Point>)

  datatype X3DHMessage = X3DHMessage(rMessage: RatchetMessage, ik: Bytes, ek: Bytes, opk: Option<Bytes>)

  class SelfIdentity {
    var IK: PrivateKey
    var SPK: PrivateKey
    var Sign: Bytes
    var OPK: seq<PrivateKey>

    function View(): Identity
      reads this
    {
      Identity(IK, SPK, Sign, OPK)
    }

    constructor GenerateIdentity(s: Suite, ik: PrivateKey, spk: PrivateKey, opks: seq<PrivateKey>)
      requires |opks| == DEFAULT_OPKN
      ensures View() == Identity(ik, spk, s.sign(s.PubBytes(spk), ik), opks)
    {
      IK, SPK, OPK := ik, spk, opks;
      Sign := s.sign(s.PubBytes(spk), ik);
    }

    method UpdateIdentity(s: Suite, spk: PrivateKey)
      modifies this
      ensures View() == old(View()).(spk := spk, sign := s.sign(s.PubBytes(spk), old(IK)))
    {
      Sign := s.sign(s.PubBytes(spk), IK);
      SPK := spk;
    }
  }

  /** What GenerateIdentity and UpdateIdentity establish. */
  ghost predicate WellSigned(s: Suite, id: Identity) {
    id.sign == s.sign(s.PubBytes(id.spk), id.ik)
  }

  function Published(s: Suite, id: Identity): RemoteIdentity {
    RemoteIdentity(s.pub(id.ik), s.pub(id.spk), id.sign,
                   seq(|id.opk|, i requires 0 <= i < |id.opk| => s.pub(id.opk[i])))
  }

  // ---- the shared secret ----

  function SenderSecret(s: Suite, id: Identity, remote: RemoteIdentity, ek: PrivateKey, otpk: Option<Point>): Bytes {
    var dhx := s.DH(id.ik, remote.spk) + s.DH(ek, remote.ik) + s.DH(ek, remote.spk);
    s.kdfX3DH(if otpk.Some? then dhx + s.DH(ek, otpk.value) else dhx)
  }

  function ReceiverSecret(s: Suite, id: Identity, rIK: Point, rEK: Point, opk: Option<PrivateKey>): Bytes {
    var dhx := s.DH(id.spk, rIK) + s.DH(id.ik, rEK) + s.DH(id.spk, rEK);
    s.kdfX3DH(if opk.Some? then dhx + s.DH(opk.value, rEK) else dhx)
  }

  function PubOption(s: Suite, opk: Option<PrivateKey>): Option<Point> {
    if opk.Some? then Some(s.pub(opk.value)) else None
  }

  /** Both sides derive the same secret, with or without a one-time key: that of the three or four
      Diffie-Hellman values of section 3.3 of "The X3DH Key Agreement Protocol", in their order. */
  lemma SecretsAgree(s: Suite, a: Identity, b: Identity, ek: PrivateKey, opk: Option<PrivateKey>)
    requires s.Lawful()
    ensures SenderSecret(s, a, Published(s, b), ek, PubOption(s, opk))
      == ReceiverSecret(s, b, s.pub(a.ik), s.pub(ek), opk)
      == var three := s.DH(a.ik, s.pub(b.spk)) + s.DH(ek, s.pub(b.ik)) + s.DH(ek, s.pub(b.spk));
         s.kdfX3DH(if opk.Some? then three + s.DH(ek, s.pub(opk.value)) else three)
  {
    hide Suite.Lawful, Suite.DH;
    DHSymmetry(s, a.ik, b.spk);
    DHSymmetry(s, ek, b.ik);
    DHSymmetry(s, ek, b.spk);
    if opk.Some? { DHSymmetry(s, ek, opk.value); }
  }

  // ---- the sender ----

  /** "sender:receiver", then ":message" when there is one. */
  function FirstText(sender: Bytes, receiver: Bytes, message: Option<Bytes>): Bytes {
    var msg := sender + [COLON] + receiver;
    if message.Some? then msg + [COLON] + message.value else msg
  }

  /** None when the signed key does not verify. */
  function SenderInit(s: Suite, remote: RemoteIdentity, otpk: Option<Point>, sender: Bytes, receiver: Bytes,
                      id: Identity, message: Option<Bytes>, ek: PrivateKey, newKey: PrivateKey)
    : Option<(State, X3DHMessage)>
    requires s.Lawful()
  {
    if !s.verify(EncodePoint(s.curve, remote.spk), remote.sign, remote.ik) then None else
    var sk := SenderSecret(s, id, remote, ek, otpk);
    var ad := s.PubBytes(id.ik) + EncodePoint(s.curve, remote.ik);
    var (st, m) := Encrypt(s, SenderState(s, sk, remote.spk, newKey),
                           FirstText(sender, receiver, message), sender, receiver, ad);
    Some((st, X3DHMessage(m, s.PubBytes(id.ik), s.PubBytes(ek),
                          if otpk.Some? then Some(EncodePoint(s.curve, otpk.value)) else None)))
  }

  // ---- the receiver ----

  function Split(text: Bytes): (parts: seq<Bytes>)
    ensures |parts| >= 1
  {
    if text == [] then [[]] else
    var rest := Split(text[1..]);
    if text[0] == COLON then [[]] + rest else [[text[0]] + rest[0]] + rest[1..]
  }

  predicate PointsDecode(s: Suite, msg: X3DHMessage)
    requires s.Lawful()
  {
    DecodePoint(s.curve, msg.ik).Some? && DecodePoint(s.curve, msg.ek).Some?
  }

  function Agreed(s: Suite, msg: X3DHMessage, opk: Option<PrivateKey>, id: Identity): State
    requires s.Lawful() && PointsDecode(s, msg)
  {
    ReceiverState(ReceiverSecret(s, id, DecodePoint(s.curve, msg.ik).value, DecodePoint(s.curve, msg.ek).value, opk),
                  id.spk)
  }

  ghost predicate CanOpen(s: Suite, msg: X3DHMessage, opk: Option<PrivateKey>, id: Identity, newKey: PrivateKey)
    requires s.Lawful()
  {
    && PointsDecode(s, msg)
    && CanDecrypt(s, Agreed(s, msg, opk, id), msg.rMessage.header, msg.rMessage.message, newKey)
  }

  function OpenFirst(s: Suite, msg: X3DHMessage, opk: Option<PrivateKey>, id: Identity, newKey: PrivateKey)
    : (State, Option<Bytes>)
    requires s.Lawful() && CanOpen(s, msg, opk, id, newKey)
  {
    Decrypt(s, Agreed(s, msg, opk, id), msg.rMessage.header, msg.rMessage.message, newKey)
  }

  /** The one-time key RInitializeX3DH uses. */
  function GivenKey(msg: X3DHMessage, opk: Option<PrivateKey>): Option<PrivateKey> {
    if msg.opk.Some? then opk else None
  }

  /** The one-time key IInitializeX3DH finds among its own. */
  function FindKey(s: Suite, opks: seq<PrivateKey>, wanted: Bytes): (r: Option<PrivateKey>)
    ensures r.Some? ==> s.PubBytes(r.value) == wanted
    ensures r.None? ==> forall i :: 0 <= i < |opks| ==> s.PubBytes(opks[i]) != wanted
  {
    if opks == [] then None
    else if s.PubBytes(opks[0]) == wanted then Some(opks[0])
    else
      var r := FindKey(s, opks[1..], wanted);
      assert r.None? ==> forall i :: 0 < i < |opks| ==> opks[i] == opks[1..][i - 1];
      r
  }

  function OwnKey(s: Suite, msg: X3DHMessage, id: Identity): Option<PrivateKey> {
    if msg.opk.Some? then FindKey(s, id.opk, msg.opk.value) else None
  }

  // ---- the protocol in place ----

  class StateTable {
    var states: map<Bytes, DRatchetState>

    constructor ()
      ensures states == map[]
    {
      states := map[];
    }

    method SInitializeX3DH(s: Suite, remote: RemoteIdentity, otpk: Option<Point>, sender: Bytes, receiver: Bytes,
                           self: SelfIdentity, message: Option<Bytes>, ek: PrivateKey, newKey: PrivateKey)
      returns (r: Option<X3DHMessage>)
      requires s.Lawful()
      modifies this
      ensures var spec := SenderInit(s, remote, otpk, sender, receiver, old(self.View()), message, ek, newKey);
        if spec.None? then r.None? && states == old(states) else
        && r == Some(spec.value.1)
        && r.value.ik == s.PubBytes(old(self.IK)) && r.value.ek == s.PubBytes(ek)
        && r.value.opk == (if otpk.Some? then Some(EncodePoint(s.curve, otpk.value)) else None)
        && r.value.rMessage.header.origin == sender && r.value.rMessage.header.destination == receiver
        && states.Keys == old(states).Keys + {receiver} && fresh(states[receiver])
        && states == old(states)[receiver := states[receiver]]
        && states[receiver].View() == spec.value.0 && states[receiver].peer == receiver
      ensures r.None? <==> !s.verify(EncodePoint(s.curve, remote.spk), remote.sign, remote.ik)
    {
      var compressedSPK := EncodePoint(s.curve, remote.spk);
      if !s.verify(compressedSPK, remote.sign, remote.ik) {
        return None;
      }
      var dhx := s.DH(self.IK, remote.spk) + s.DH(ek, remote.ik);
      dhx := dhx + s.DH(ek, remote.spk);
      if otpk.Some? {
        dhx := dhx + s.DH(ek, otpk.value);
      }
      var sk := s.kdfX3DH(dhx);
      var sIKcompressed := s.PubBytes(self.IK);
      var ad := sIKcompressed + EncodePoint(s.curve, remote.ik);
      var ratchetState := new DRatchetState.SInitializeRatchet(s, sk, remote.spk, receiver, newKey);
      states := states[receiver := ratchetState];
      var ratchetMessage := ratchetState.RatchetEncrypt(s, FirstText(sender, receiver, message), sender, receiver, ad);
      r := Some(X3DHMessage(ratchetMessage, sIKcompressed, s.PubBytes(ek),
                            if otpk.Some? then Some(EncodePoint(s.curve, otpk.value)) else None));
    }

    /** The common part of RInitializeX3DH and IInitializeX3DH: which field of the text is returned
        is all that differs after the one-time key is chosen. */
    method Receive(s: Suite, msg: X3DHMessage, opk: Option<PrivateKey>, self: SelfIdentity, newKey: PrivateKey,
                   field: nat)
      returns (r: Option<Bytes>)
      requires s.Lawful() && CanOpen(s, msg, opk, self.View(), newKey)
      requires var text := OpenFirst(s, msg, opk, self.View(), newKey).1;
        text.Some? ==> field < |Split(text.value)|
      modifies this
      ensures var (st, text) := OpenFirst(s, msg, opk, old(self.View()), newKey);
        if text.None? then r.None? && states == old(states) else
        var parts := Split(text.value);
        && r == Some(parts[field])
        && states.Keys == old(states).Keys + {parts[0]} && fresh(states[parts[0]])
        && states == old(states)[parts[0] := states[parts[0]]]
        && states[parts[0]].View() == st && states[parts[0]].peer == parts[0]
    {
      var rIK, rEK := DecodePoint(s.curve, msg.ik).value, DecodePoint(s.curve, msg.ek).value;
      var sk := ReceiverSecret(s, self.View(), rIK, rEK, opk);
      var ratchetState := new DRatchetState.RInitializeRatchet(sk, self.SPK);
      var plaintext := ratchetState.RatchetDecrypt(s, msg.rMessage.header, msg.rMessage.message, newKey);
      if plaintext.None? {
        return None;
      }
      var plainarray := Split(plaintext.value);
      ratchetState.peer := plainarray[0];
      states := states[plainarray[0] := ratchetState];
      r := Some(plainarray[field]);
    }

    method RInitializeX3DH(s: Suite, msg: X3DHMessage, opk: Option<PrivateKey>, self: SelfIdentity, newKey: PrivateKey)
      returns (r: Option<Bytes>)
      requires s.Lawful() && CanOpen(s, msg, GivenKey(msg, opk), self.View(), newKey)
      requires var text := OpenFirst(s, msg, GivenKey(msg, opk), self.View(), newKey).1;
        text.Some? ==> 1 < |Split(text.value)|
      modifies this
      ensures var (st, text) := OpenFirst(s, msg, GivenKey(msg, opk), old(self.View()), newKey);
        if text.None? then r.None? && states == old(states) else
        var parts := Split(text.value);
        && r == Some(parts[1]) && parts[0] in states && fresh(states[parts[0]])
        && states == old(states)[parts[0] := states[parts[0]]]
        && states[parts[0]].View() == st && states[parts[0]].peer == parts[0]
    {
      var used: Option<PrivateKey> := None;
      if msg.opk.Some? && opk.Some? {
        used := opk;
      }
      r := Receive(s, msg, used, self, newKey, 1);
    }

    method IInitializeX3DH(s: Suite, msg: X3DHMessage, self: SelfIdentity, newKey: PrivateKey)
      returns (r: Option<Bytes>)
      requires s.Lawful() && CanOpen(s, msg, OwnKey(s, msg, self.View()), self.View(), newKey)
      requires var text := OpenFirst(s, msg, OwnKey(s, msg, self.View()), self.View(), newKey).1;
        text.Some? ==> 2 < |Split(text.value)|
      modifies this
      ensures var (st, text) := OpenFirst(s, msg, OwnKey(s, msg, old(self.View())), old(self.View()), newKey);
        if text.None? then r.None? && states == old(states) else
        var parts := Split(text.value);
        && r == Some(parts[2]) && parts[0] in states && fresh(states[parts[0]])
        && states == old(states)[parts[0] := states[parts[0]]]
        && states[parts[0]].View() == st && states[parts[0]].peer == parts[0]
    {
      var used: Option<PrivateKey> := None;
      if msg.opk.Some? {
        var i := 0;
        while i < |self.OPK|
          invariant i <= |self.OPK| && used.None?
          invariant FindKey(s, self.OPK[i..], msg.opk.value) == FindKey(s, self.OPK, msg.opk.value)
        {
          if s.PubBytes(self.OPK[i]) == msg.opk.value {
            used := Some(self.OPK[i]);
            break;
          }
          assert self.OPK[i..][1..] == self.OPK[i + 1..];
          i := i + 1;
        }
      }
      r := Receive(s, msg, used, self, newKey, 2);
    }
  }

  // ---- agreement ----

  /** Identities made or updated by the code pass the sender's signature check. */
  lemma SignatureVerifies(s: Suite, b: Identity)
    requires s.Lawful() && WellSigned(s, b)
    ensures s.verify(EncodePoint(s.curve, Published(s, b).spk), Published(s, b).sign, Published(s, b).ik)
  {
  }

  /** The session of a (with ephemeral key ek) and b whose first ratchet keys are keys 0, 1 and 2. */
  ghost predicate IsSession(z: Session, a: Identity, b: Identity, ek: PrivateKey, otpk: Option<Point>)
  {
    && z.s.Lawful() && WellSigned(z.s, b) && z.keys(0) == b.spk
    && z.sk == SenderSecret(z.s, a, Published(z.s, b), ek, otpk)
    && Distinct(z, 3)
  }

  function FirstSend(sender: Bytes, receiver: Bytes, message: Option<Bytes>, ad: Bytes): Action {
    Send(1, FirstText(sender, receiver, message), sender, receiver, ad)
  }

  /** Whatever one-time key the receiver uses, if it yields the sender's secret then the first message
      opens to the sender's text, and both states are those of a ratchet session in which that message
      was sent and received. */
  lemma FirstMessageOpens(z: Session, a: Identity, b: Identity, ek: PrivateKey, otpk: Option<Point>,
                          used: Option<PrivateKey>, sender: Bytes, receiver: Bytes, message: Option<Bytes>)
    requires IsSession(z, a, b, ek, otpk)
    requires ReceiverSecret(z.s, b, z.s.pub(a.ik), z.s.pub(ek), used) == z.sk
    ensures var i := SenderInit(z.s, Published(z.s, b), otpk, sender, receiver, a, message, ek, z.keys(1));
      && i.Some?
      && CanOpen(z.s, i.value.1, used, b, z.keys(2))
      && var ad := z.s.PubBytes(a.ik) + EncodePoint(z.s.curve, z.s.pub(b.ik));
         var run := [FirstSend(sender, receiver, message, ad), Deliver(0, 0)];
      && ValidRun(z, Initial(z), run)
      && var y := RunFrom(z, Initial(z), run);
      && |y.peers| == 2 && y.peers[1].st == i.value.0
      && OpenFirst(z.s, i.value.1, used, b, z.keys(2))
           == (y.peers[0].st, Some(FirstText(sender, receiver, message)))
  {
    hide Encrypt, Decrypt, CanDecrypt, RunFrom, ValidRun, SenderSecret, ReceiverSecret, Distinct;
    var ad := z.s.PubBytes(a.ik) + EncodePoint(z.s.curve, z.s.pub(b.ik));
    PubBytesDecode(z.s, a.ik);
    PubBytesDecode(z.s, ek);
    FirstExchange(z, FirstSend(sender, receiver, message, ad));
  }

  /** The receiver given the private one-time key agrees with the sender given its public half. */
  lemma GivenKeyAgrees(z: Session, a: Identity, b: Identity, ek: PrivateKey, opk: Option<PrivateKey>, msg: X3DHMessage)
    requires IsSession(z, a, b, ek, PubOption(z.s, opk))
    requires msg.opk.Some? <==> opk.Some?
    ensures ReceiverSecret(z.s, b, z.s.pub(a.ik), z.s.pub(ek), GivenKey(msg, opk)) == z.sk
  {
    SecretsAgree(z.s, a, b, ek, opk);
  }

  /** So does the receiver that looks the key up among its own, for any key it has published. */
  lemma OwnKeyAgrees(z: Session, a: Identity, b: Identity, ek: PrivateKey, n: nat, msg: X3DHMessage)
    requires n < |b.opk| && IsSession(z, a, b, ek, Some(Published(z.s, b).opk[n]))
    requires msg.opk == Some(z.s.PubBytes(b.opk[n]))
    ensures ReceiverSecret(z.s, b, z.s.pub(a.ik), z.s.pub(ek), OwnKey(z.s, msg, b)) == z.sk
  {
    hide SenderSecret, ReceiverSecret, Distinct;
    var k := FindKey(z.s, b.opk, z.s.PubBytes(b.opk[n]));
    // equal compressed forms are forms of the same point
    PubBytesDecode(z.s, k.value);
    PubBytesDecode(z.s, b.opk[n]);
    SecretsAgree(z.s, a, b, ek, k);
  }

  /** b, with the one-time key used, opens the message that a sends: it reads the sender's text, in a message
      that names both of them. */
  ghost predicate Opened(z: Session, a: Identity, b: Identity, msg: X3DHMessage, used: Option<PrivateKey>,
                         sender: Bytes, receiver: Bytes, message: Option<Bytes>)
    requires z.s.Lawful()
  {
    && CanOpen(z.s, msg, used, b, z.keys(2))
    && OpenFirst(z.s, msg, used, b, z.keys(2)).1 == Some(FirstText(sender, receiver, message))
    && msg.rMessage.header.origin == sender && msg.rMessage.header.destination == receiver
  }

  /** The first message of a, for a receiver that has published this one-time key. */
  function FirstMessage(z: Session, a: Identity, b: Identity, ek: PrivateKey, otpk: Option<Point>,
                        sender: Bytes, receiver: Bytes, message: Option<Bytes>): Option<X3DHMessage>
    requires z.s.Lawful()
  {
    var i := SenderInit(z.s, Published(z.s, b), otpk, sender, receiver, a, message, ek, z.keys(1));
    if i.Some? then Some(i.value.1) else None
  }

  /** That message is sent, and names the one-time key if there is one. */
  lemma NamesKey(z: Session, a: Identity, b: Identity, ek: PrivateKey, otpk: Option<Point>,
                 sender: Bytes, receiver: Bytes, message: Option<Bytes>)
    requires z.s.Lawful() && WellSigned(z.s, b)
    ensures var m := FirstMessage(z, a, b, ek, otpk, sender, receiver, message);
      m.Some? && m.value.opk == if otpk.Some? then Some(EncodePoint(z.s.curve, otpk.value)) else None
  {
    hide Encrypt, SenderSecret;
    SignatureVerifies(z.s, b);
  }

  lemma OpensWith(z: Session, a: Identity, b: Identity, ek: PrivateKey, otpk: Option<Point>,
                  used: Option<PrivateKey>, sender: Bytes, receiver: Bytes, message: Option<Bytes>)
    requires IsSession(z, a, b, ek, otpk)
    requires ReceiverSecret(z.s, b, z.s.pub(a.ik), z.s.pub(ek), used) == z.sk
    ensures var m := FirstMessage(z, a, b, ek, otpk, sender, receiver, message);
      m.Some? && Opened(z, a, b, m.value, used, sender, receiver, message)
  {
    hide CanDecrypt, Decrypt, RunFrom, ValidRun, SenderSecret, ReceiverSecret, Distinct, Suite.Lawful;
    FirstMessageOpens(z, a, b, ek, otpk, used, sender, receiver, message);
  }

  /** The message sent for a published one-time key opens at the receiver that looks the key up among its
      own. */
  lemma OwnKeyOpens(z: Session, a: Identity, b: Identity, ek: PrivateKey, n: nat,
                    sender: Bytes, receiver: Bytes, message: Option<Bytes>)
    requires n < |b.opk| && IsSession(z, a, b, ek, Some(Published(z.s, b).opk[n]))
    ensures var m := FirstMessage(z, a, b, ek, Some(Published(z.s, b).opk[n]), sender, receiver, message);
      m.Some? && Opened(z, a, b, m.value, OwnKey(z.s, m.value, b), sender, receiver, message)
  {
    hide Opened, SenderInit, ReceiverSecret, FindKey;
    var otpk := Some(Published(z.s, b).opk[n]);
    NamesKey(z, a, b, ek, otpk, sender, receiver, message);
    var msg := FirstMessage(z, a, b, ek, otpk, sender, receiver, message).value;
    OwnKeyAgrees(z, a, b, ek, n, msg);
    OpensWith(z, a, b, ek, otpk, OwnKey(z.s, msg, b), sender, receiver, message);
  }

  /** So does the message sent for the public half of a one-time key, or for none, at the receiver that is
      given the private one. */
  lemma GivenKeyOpens(z: Session, a: Identity, b: Identity, ek: PrivateKey, opk: Option<PrivateKey>,
                      sender: Bytes, receiver: Bytes, message: Option<Bytes>)
    requires IsSession(z, a, b, ek, PubOption(z.s, opk))
    ensures var m := FirstMessage(z, a, b, ek, PubOption(z.s, opk), sender, receiver, message);
      m.Some? && Opened(z, a, b, m.value, GivenKey(m.value, opk), sender, receiver, message)
  {
    hide Opened, SenderInit, ReceiverSecret;
    NamesKey(z, a, b, ek, PubOption(z.s, opk), sender, receiver, message);
    var msg := FirstMessage(z, a, b, ek, PubOption(z.s, opk), sender, receiver, message).value;
    GivenKeyAgrees(z, a, b, ek, opk, msg);
    OpensWith(z, a, b, ek, PubOption(z.s, opk), GivenKey(msg, opk), sender, receiver, message);
  }

  /** A message sent without a one-time key opens whatever key the receiver is given or has. */
  lemma NoKeyOpens(z: Session, a: Identity, b: Identity, ek: PrivateKey, given: Option<PrivateKey>,
                   sender: Bytes, receiver: Bytes, message: Option<Bytes>)
    requires IsSession(z, a, b, ek, None)
    ensures var m := FirstMessage(z, a, b, ek, None, sender, receiver, message);
      && m.Some? && Opened(z, a, b, m.value, GivenKey(m.value, given), sender, receiver, message)
      && Opened(z, a, b, m.value, OwnKey(z.s, m.value, b), sender, receiver, message)
  {
    hide Opened, SenderInit, ReceiverSecret;
    NamesKey(z, a, b, ek, None, sender, receiver, message);
    SecretsAgree(z.s, a, b, ek, None);
    OpensWith(z, a, b, ek, None, None, sender, receiver, message);
  }

  // ---- what the receiver returns ----

  lemma {:induction false} SplitAt(a: Bytes, b: Bytes)
    requires COLON !in a
    ensures Split(a + [COLON] + b) == [a] + Split(b)
  {
    if a == [] {
      assert (a + [COLON] + b)[1..] == b;
    } else {
      SplitAt(a[1..], b);
      assert (a + [COLON] + b)[1..] == a[1..] + [COLON] + b;
      assert a == [a[0]] + a[1..];
    }
  }

  /** The first field of a text is the text exactly when it holds no separator. */
  lemma {:induction false} FirstField(text: Bytes)
    ensures Split(text)[0] == text <==> COLON !in text
    ensures |Split(text)[0]| <= |text|
  {
    if text != [] {
      FirstField(text[1..]);
      assert text == [text[0]] + text[1..];
    }
  }

  lemma {:induction false} FieldsClean(text: Bytes)
    ensures COLON !in Split(text)[0]
  {
    if text != [] {
      FieldsClean(text[1..]);
    }
  }

  /** The receiver files the session under the sender's name exactly when that holds no separator. */
  lemma FiledUnderSender(sender: Bytes, receiver: Bytes, message: Option<Bytes>)
    ensures Split(FirstText(sender, receiver, message))[0] == sender <==> COLON !in sender
  {
    FieldsClean(FirstText(sender, receiver, message));
    if COLON !in sender {
      var rest := receiver + if message.Some? then [COLON] + message.value else [];
      assert FirstText(sender, receiver, message) == sender + [COLON] + rest;
      SplitAt(sender, rest);
    }
  }

  /** With separator-free names, RInitializeX3DH returns the receiver's name and IInitializeX3DH
      returns the sender's message if and only if that holds no separator either: what follows the
      first one is cut off. Both file the session under the sender's name. */
  lemma ReturnedFields(sender: Bytes, receiver: Bytes, message: Bytes)
    requires COLON !in sender && COLON !in receiver
    ensures Split(FirstText(sender, receiver, None)) == [sender, receiver]
    ensures var parts := Split(FirstText(sender, receiver, Some(message)));
      && |parts| >= 3 && parts[0] == sender && parts[1] == receiver
      && (parts[2] == message <==> COLON !in message)
  {
    SplitAt(sender, receiver);
    FirstField(receiver);
    NoSeparator(receiver);
    assert FirstText(sender, receiver, Some(message)) == sender + [COLON] + (receiver + [COLON] + message);
    SplitAt(sender, receiver + [COLON] + message);
    SplitAt(receiver, message);
    FirstField(message);
  }

  lemma {:induction false} NoSeparator(a: Bytes)
    requires COLON !in a
    ensures Split(a) == [a]
  {
    if a != [] {
      NoSeparator(a[1..]);
      assert a == [a[0]] + a[1..];
    }
  }
}
