/** The hypotheses about the cryptography can be met together: a toy suite over the field of seven
    elements satisfies every law, and a session over it has five different ratchet keys. */
module Instance {
  import opened Basics
  import opened NumberTheory
  import opened Bytes
  import opened PointCodec
  import opened Primitives
  import opened RatchetSession

  const CURVE := Curve(7, 4, 3, _ => None)

  /** Five points of the curve. */
  function Public(d: Bytes): Point {
    var k := if d == [] then 0 else d[0] % 5;
    if k == 0 then Point(0, 2) else if k == 1 then Point(0, 5) else if k == 2 then Point(1, 3)
    else if k == 3 then Point(1, 4) else Point(3, 1)
  }

  const TOY := Suite(
    CURVE,
    d => Public(d),
    (d, q) => Point(0, 2),
    (m, k) => Zeros(16),
    m => m,
    (rk, dh) => (rk, dh),
    dh => dh,
    mk => (mk, mk, mk),
    (k, iv, m) => m,
    (k, iv, m) => m,
    (header: RatchetHeader) => header.pubKey,
    (m, d) => m,
    (m, signature, q) => true)

  const SESSION := Session(TOY, [], n => [n % 256])

  lemma CurveValid()
    ensures CURVE.Valid()
  {
    assert Pow(2, 3) == 8 by { assert Pow(2, 2) == 4; }
  }

  lemma SuiteLawful()
    ensures TOY.Lawful()
  {
    CurveValid();
    forall d: Bytes ensures CURVE.OnCurve(Public(d)) {
    }
  }

  lemma PublicOnCurve(i: nat)
    requires i < 5
    ensures CURVE.OnCurve(Public([i]))
  {
  }

  lemma FingerprintDecodes(i: nat)
    requires i < 5
    ensures CURVE.p > 0 && DecodePoint(CURVE, Fingerprint(SESSION, i)) == Some(Public([i]))
  {
    hide DecodePoint, EncodePoint, Public, Curve.OnCurve, Curve.Valid;
    CurveValid();
    PublicOnCurve(i);
    assert Fingerprint(SESSION, i) == EncodePoint(CURVE, Public([i]));
    CurvePointRoundTrip(CURVE, Public([i]));
  }

  lemma SessionDistinct()
    ensures SESSION.s.Lawful() && Distinct(SESSION, 5)
  {
    hide Fingerprint, DecodePoint, Suite.Lawful;
    SuiteLawful();
    forall i, j | 0 <= i < j < 5 ensures Fingerprint(SESSION, i) != Fingerprint(SESSION, j) {
      FingerprintDecodes(i);
      FingerprintDecodes(j);
    }
  }
}
