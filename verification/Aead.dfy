/** adssignal/adsAEAD.go: padding to AES blocks and encrypt-then-MAC. */
module Aead {
  import opened Basics
  import opened Bytes
  import opened NumberTheory
  import opened Primitives

  const AES_BLOCK := 16

  datatype RatchetCipher = RatchetCipher(ad: Bytes, ciph: Bytes)

  // ---- padding ----

  function PadLength(m: Bytes): nat {
    AES_BLOCK - |m| % AES_BLOCK
  }

  function Pad(m: Bytes): (p: Bytes)
    ensures |p| > 0 && |p| % AES_BLOCK == 0
  {
    m + Repeat(PadLength(m), PadLength(m))
  }

  /** s ends in v bytes of value v, for some v between 1 and 16. */
  predicate IsPadded(s: Bytes)
    requires |s| >= AES_BLOCK
  {
    var v := s[|s| - 1];
    1 <= v <= AES_BLOCK && s[|s| - v..] == Repeat(v, v)
  }

  /** What is not padded is returned untouched. */
  function Unpad(s: Bytes): Bytes
    requires |s| >= AES_BLOCK
  {
    if IsPadded(s) then s[..|s| - s[|s| - 1]] else s
  }

  method Padd(plaintext: Bytes) returns (paddedPt: Bytes)
    ensures paddedPt == Pad(plaintext)
    ensures var added := |paddedPt| - |plaintext|;
      && 1 <= added <= 16 && |paddedPt| % 16 == 0 && paddedPt[..|plaintext|] == plaintext
      && forall i :: |plaintext| <= i < |paddedPt| ==> paddedPt[i] == added
  {
    paddedPt := plaintext;
    var lastBlockLen := |plaintext| % AES_BLOCK;
    var paddLen := AES_BLOCK - lastBlockLen;
    if paddLen == 0 {
      paddLen := AES_BLOCK;
    }
    var bs := LittleEndian(paddLen, 2);
    for i := 0 to paddLen
      invariant paddedPt == plaintext + Repeat(paddLen, i)
    {
      paddedPt := paddedPt + bs[..1];
    }
  }

  method Unpadd(plaintext: Bytes) returns (r: Bytes)
    requires |plaintext| >= AES_BLOCK
    ensures r == Unpad(plaintext)
    ensures forall v: byte :: 1 <= v <= 16 && plaintext[|plaintext| - v..] == Repeat(v, v) ==>
      r == plaintext[..|plaintext| - v]
    ensures (forall v: byte :: 1 <= v <= 16 ==> plaintext[|plaintext| - v..] != Repeat(v, v)) ==> r == plaintext
  {
    var n := |plaintext|;
    var possPadd := plaintext[n - 1];
    if possPadd > 0 && possPadd <= 16 {
      for i := 1 to possPadd
        invariant forall j :: n - i <= j < n ==> plaintext[j] == possPadd
      {
        if plaintext[n - 1 - i] != possPadd {
          assert plaintext[n - possPadd..][possPadd - 1 - i] != Repeat(possPadd, possPadd)[possPadd - 1 - i];
          return plaintext;
        }
      }
      assert plaintext[n - possPadd..] == Repeat(possPadd, possPadd);
      return plaintext[..n - possPadd];
    }
    return plaintext;
  }

  lemma UnpadPad(m: Bytes)
    ensures Unpad(Pad(m)) == m
  {
    assert Pad(m)[|m|..] == Repeat(PadLength(m), PadLength(m));
    assert Pad(m)[..|m|] == m;
  }

  // ---- encryption ----

  /** The additional data is dropped: what is authenticated is the encoded header alone. */
  function Concat(s: Suite, ad: Bytes, header: RatchetHeader): Bytes {
    s.gob(header)
  }

  function MacInput(ad: Bytes, body: Bytes): Bytes {
    ad + body + LittleEndian(|ad|, 8)
  }

  function Tag(s: Suite, key: Bytes, ad: Bytes, body: Bytes): (t: Bytes)
    requires forall m, k :: |s.hmac(m, k)| >= 16
    ensures |t| == AES_BLOCK
  {
    s.hmac(MacInput(ad, body), key)[..AES_BLOCK]
  }

  function EncryptAEAD(s: Suite, mk: Bytes, plaintext: Bytes, ad: Bytes): RatchetCipher
    requires s.Lawful()
  {
    var (enc, auth, iv) := s.kdfAEAD(mk);
    var body := s.cbcEncrypt(enc, iv, Pad(plaintext));
    RatchetCipher(ad, body + Tag(s, auth, ad, body))
  }

  predicate Authentic(s: Suite, mk: Bytes, c: RatchetCipher, header: RatchetHeader)
    requires s.Lawful() && |c.ciph| >= AES_BLOCK
  {
    var split := |c.ciph| - AES_BLOCK;
    var (enc, auth, iv) := s.kdfAEAD(mk);
    c.ciph[split..] == Tag(s, auth, Concat(s, c.ad, header), c.ciph[..split])
  }

  /** What the decryption dereferences: a tag and, once that is accepted, whole blocks. */
  predicate Decryptable(s: Suite, mk: Bytes, c: RatchetCipher, header: RatchetHeader)
    requires s.Lawful()
  {
    && |c.ciph| >= AES_BLOCK
    && (Authentic(s, mk, c, header) ==>
          var (enc, auth, iv) := s.kdfAEAD(mk);
          |s.cbcDecrypt(enc, iv, c.ciph[..|c.ciph| - AES_BLOCK])| >= AES_BLOCK)
  }

  function DecryptAEAD(s: Suite, mk: Bytes, c: RatchetCipher, header: RatchetHeader): Option<Bytes>
    requires s.Lawful() && Decryptable(s, mk, c, header)
  {
    if !Authentic(s, mk, c, header) then None else
    var (enc, auth, iv) := s.kdfAEAD(mk);
    Some(Unpad(s.cbcDecrypt(enc, iv, c.ciph[..|c.ciph| - AES_BLOCK])))
  }

  /** Decryption under the same key and header inverts encryption, whatever the additional data. */
  lemma DecryptInvertsEncrypt(s: Suite, mk: Bytes, plaintext: Bytes, ad: Bytes, header: RatchetHeader)
    requires s.Lawful()
    ensures var c := EncryptAEAD(s, mk, plaintext, Concat(s, ad, header));
      Decryptable(s, mk, c, header) && DecryptAEAD(s, mk, c, header) == Some(plaintext)
  {
    var c := EncryptAEAD(s, mk, plaintext, Concat(s, ad, header));
    var (enc, auth, iv) := s.kdfAEAD(mk);
    var body := s.cbcEncrypt(enc, iv, Pad(plaintext));
    assert c.ciph[..|c.ciph| - AES_BLOCK] == body;
    UnpadPad(plaintext);
  }

  // ---- what is authenticated ----

  /** The length at the end tells where the additional data stops. */
  lemma MacInputInjective(ad: Bytes, body: Bytes, ad': Bytes, body': Bytes)
    requires MacInput(ad, body) == MacInput(ad', body')
    requires |ad| < Pow(256, 8) && |ad'| < Pow(256, 8)
    ensures ad == ad' && body == body'
  {
    var x, y := MacInput(ad, body), MacInput(ad', body');
    var n := |x| - 8;
    assert x[n..] == LittleEndian(|ad|, 8) && y[n..] == LittleEndian(|ad'|, 8);
    LittleEndianInjective(|ad|, |ad'|, 8);
    var k := |ad|;
    assert x[..k] == ad && y[..k] == ad';
    assert x[k..n] == body && y[k..n] == body';
  }

  function Body(c: RatchetCipher): Bytes
    requires |c.ciph| >= AES_BLOCK
  {
    c.ciph[..|c.ciph| - AES_BLOCK]
  }

  /** Under the tag of an encrypted message, and unless the tag collides, exactly that message is accepted:
      the same body, under a header with the same encoding, whatever additional data comes along. */
  lemma OnlyOriginalAccepted(s: Suite, mk: Bytes, plaintext: Bytes, ad: Bytes, header: RatchetHeader,
                             c': RatchetCipher, header': RatchetHeader)
    requires s.Lawful() && |c'.ciph| >= AES_BLOCK
    requires |s.gob(header)| < Pow(256, 8) && |s.gob(header')| < Pow(256, 8)
    requires var c := EncryptAEAD(s, mk, plaintext, Concat(s, ad, header));
      && c'.ciph[|c'.ciph| - AES_BLOCK..] == c.ciph[|c.ciph| - AES_BLOCK..]
      && var auth := s.kdfAEAD(mk).1;
         var x, y := MacInput(s.gob(header), Body(c)), MacInput(s.gob(header'), Body(c'));
         s.hmac(x, auth)[..AES_BLOCK] == s.hmac(y, auth)[..AES_BLOCK] ==> x == y
    ensures var c := EncryptAEAD(s, mk, plaintext, Concat(s, ad, header));
      var same := s.gob(header') == s.gob(header) && Body(c') == Body(c);
      && (Authentic(s, mk, c', header') <==> same)
      && (Decryptable(s, mk, c', header') ==> (DecryptAEAD(s, mk, c', header').Some? <==> same))
  {
    hide MacInput, Pad, LittleEndian, Suite.Lawful;
    var c := EncryptAEAD(s, mk, plaintext, Concat(s, ad, header));
    var (enc, auth, iv) := s.kdfAEAD(mk);
    var body := s.cbcEncrypt(enc, iv, Pad(plaintext));
    TaggedParts(s, mk, plaintext, s.gob(header));
    if Authentic(s, mk, c', header') {
      MacInputInjective(s.gob(header), body, s.gob(header'), Body(c'));
    }
  }

  /** The parts of a ciphertext: the additional data as given, the encryption of the padded text, and the
      first 16 bytes of the code of additional data, encryption and length of the former. */
  lemma TaggedParts(s: Suite, mk: Bytes, plaintext: Bytes, ad: Bytes)
    requires s.Lawful()
    ensures var c := EncryptAEAD(s, mk, plaintext, ad);
      var (enc, auth, iv) := s.kdfAEAD(mk);
      var body := s.cbcEncrypt(enc, iv, Pad(plaintext));
      && c.ad == ad && |c.ciph| == |body| + 16 && Body(c) == body
      && c.ciph[|body|..] == Tag(s, auth, ad, body) == s.hmac(ad + body + LittleEndian(|ad|, 8), auth)[..16]
  {
    hide Pad;
    var c := EncryptAEAD(s, mk, plaintext, ad);
    var (enc, auth, iv) := s.kdfAEAD(mk);
    var body := s.cbcEncrypt(enc, iv, Pad(plaintext));
    assert c.ciph[..|c.ciph| - AES_BLOCK] == body;
  }
}
