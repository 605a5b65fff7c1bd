/** The cryptographic primitives the Signal code calls, as parameters: only the laws the code
    relies on are ever used. */
module Primitives {
  import opened Basics
  import opened Bytes
  import opened PointCodec

  type PrivateKey = Bytes

  datatype RatchetHeader = RatchetHeader(
    pubKey: Bytes, pn: nat, n: nat, origin: Bytes, destination: Bytes, hopLimit: nat)

  datatype Suite = Suite(
    curve: Curve,
    pub: PrivateKey -> Point,
    scalarMult: (PrivateKey, Point) -> Point,
    hmac: (Bytes, Bytes) -> Bytes,
    sha256: Bytes -> Bytes,
    kdfRK: (Bytes, Bytes) -> (Bytes, Bytes),
    kdfX3DH: Bytes -> Bytes,
    kdfAEAD: Bytes -> (Bytes, Bytes, Bytes),
    cbcEncrypt: (Bytes, Bytes, Bytes) -> Bytes,
    cbcDecrypt: (Bytes, Bytes, Bytes) -> Bytes,
    gob: RatchetHeader -> Bytes,
    sign: (Bytes, PrivateKey) -> Bytes,
    verify: (Bytes, Bytes, Point) -> bool)
  {
    /** Public keys are curve points; scalar multiplication commutes; CBC decryption inverts
        encryption of whole blocks; a MAC has at least the 16 bytes kept as a tag; signatures
        verify. */
    ghost predicate Lawful() {
      && curve.Valid()
      && (forall d :: curve.OnCurve(pub(d)))
      && (forall a, b :: scalarMult(a, pub(b)) == scalarMult(b, pub(a)))
      && (forall k, iv, m :: |m| % 16 == 0 ==> |cbcEncrypt(k, iv, m)| == |m|)
      && (forall k, iv, m :: |m| % 16 == 0 ==> cbcDecrypt(k, iv, cbcEncrypt(k, iv, m)) == m)
      && (forall m, k :: |hmac(m, k)| >= 16)
      && (forall m, d :: verify(m, sign(m, d), pub(d)))
    }

    /** adssignal/adsECDH.go: the shared point, compressed. */
    function DH(d: PrivateKey, q: Point): Bytes {
      EncodePoint(curve, scalarMult(d, q))
    }

    /** adssignal/adsKDF.go: the next chain key and the message key of a chain key. */
    function KdfCK(ck: Bytes): (Bytes, Bytes) {
      (hmac([0x32], ck), hmac([0x31], ck))
    }

    /** The public key as it travels in headers. */
    function PubBytes(d: PrivateKey): Bytes {
      EncodePoint(curve, pub(d))
    }
  }

  lemma DHSymmetry(s: Suite, a: PrivateKey, b: PrivateKey)
    requires s.Lawful()
    ensures s.DH(a, s.pub(b)) == s.DH(b, s.pub(a))
  {
  }

  lemma PubBytesDecode(s: Suite, d: PrivateKey)
    requires s.Lawful()
    ensures DecodePoint(s.curve, s.PubBytes(d)) == Some(s.pub(d))
  {
    CurvePointRoundTrip(s.curve, s.pub(d));
  }
}
