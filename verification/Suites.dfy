/** The cipher suites of js/core/suites.js over symbolic ciphers. */
module Suites {
  import opened Bytes
  import opened PlainObject
  import opened Wrappers

  /** An authenticated cipher: key, nonce, additional data, text. */
  datatype Aead = Aead(seal: (Bytes, Bytes, Bytes, Bytes) -> Bytes, open: (Bytes, Bytes, Bytes, Bytes) -> Option<Bytes>)

  /** Opening yields a text exactly for that text's own ciphertext, which is 16 bytes longer. */
  ghost predicate Lawful(cipher: Aead) {
    (forall k, n, a, p :: |cipher.seal(k, n, a, p)| == |p| + 16)
    && (forall k, n, a, p :: cipher.open(k, n, a, cipher.seal(k, n, a, p)) == Some(p))
    && (forall k, n, a, c :: cipher.open(k, n, a, c).Some? ==>
          c == cipher.seal(k, n, a, cipher.open(k, n, a, c).value))
  }

  datatype Ciphers = Ciphers(aes: Aead, xchacha: Aead)

  ghost predicate BothLawful(ciphers: Ciphers) {
    Lawful(ciphers.aes) && Lawful(ciphers.xchacha)
  }

  const AES_KEY_BYTES := 32
  const AES_MATERIAL := 44
  const XCHACHA_KEY_BYTES := 32
  const XCHACHA_MATERIAL := 56

  datatype Suite = AesGcm | XChaCha | Cascade

  /** The table's own entries. */
  function GetSuite(name: string): Option<Suite> {
    if name == "aes-256-gcm" then Some(AesGcm)
    else if name == "xchacha20-poly1305" then Some(XChaCha)
    else if name == "cascade-aes-xchacha" then Some(Cascade)
    else None
  }

  /** The names for which getSuite does not throw: the table is a plain object, so inherited names pass as well. */
  predicate PassesGetSuite(name: string) {
    GetSuite(name).Some? || name in INHERITED
  }

  function MaterialBytes(suite: Suite): nat {
    match suite
    case AesGcm => AES_MATERIAL
    case XChaCha => XCHACHA_MATERIAL
    case Cascade => AES_MATERIAL + XCHACHA_MATERIAL
  }

  function OverheadBytes(suite: Suite): nat {
    if suite == Cascade then 32 else 16
  }

  /** The inner cipher takes the first slice of the material, the outer one the rest. */
  function Seal(ciphers: Ciphers, suite: Suite, material: Bytes, aad: Bytes, plain: Bytes): Bytes
    requires |material| == MaterialBytes(suite)
    decreases suite == Cascade
  {
    match suite
    case AesGcm => ciphers.aes.seal(material[..AES_KEY_BYTES], material[AES_KEY_BYTES..], aad, plain)
    case XChaCha => ciphers.xchacha.seal(material[..XCHACHA_KEY_BYTES], material[XCHACHA_KEY_BYTES..], aad, plain)
    case Cascade =>
      Seal(ciphers, XChaCha, material[AES_MATERIAL..], aad, Seal(ciphers, AesGcm, material[..AES_MATERIAL], aad, plain))
  }

  function Open(ciphers: Ciphers, suite: Suite, material: Bytes, aad: Bytes, cipher: Bytes): Option<Bytes>
    requires |material| == MaterialBytes(suite)
    decreases suite == Cascade
  {
    match suite
    case AesGcm => ciphers.aes.open(material[..AES_KEY_BYTES], material[AES_KEY_BYTES..], aad, cipher)
    case XChaCha => ciphers.xchacha.open(material[..XCHACHA_KEY_BYTES], material[XCHACHA_KEY_BYTES..], aad, cipher)
    case Cascade =>
      match Open(ciphers, XChaCha, material[AES_MATERIAL..], aad, cipher) {
        case None => None
        case Some(inner) => Open(ciphers, AesGcm, material[..AES_MATERIAL], aad, inner)
      }
  }

  /** Every suite, the cascade included, opens a ciphertext to a text exactly when it is that text, sealed. */
  lemma {:induction false} OpenInvertsSeal(ciphers: Ciphers, suite: Suite, material: Bytes, aad: Bytes,
                                           cipher: Bytes, plain: Bytes)
    requires BothLawful(ciphers) && |material| == MaterialBytes(suite)
    ensures Open(ciphers, suite, material, aad, cipher) == Some(plain)
       <==> cipher == Seal(ciphers, suite, material, aad, plain)
    decreases suite == Cascade
  {
    if suite == Cascade {
      var outer, inner := material[AES_MATERIAL..], material[..AES_MATERIAL];
      var middle := Seal(ciphers, AesGcm, inner, aad, plain);
      OpenInvertsSeal(ciphers, XChaCha, outer, aad, cipher, middle);
      OpenInvertsSeal(ciphers, AesGcm, inner, aad, middle, plain);
      var peeled := Open(ciphers, XChaCha, outer, aad, cipher);
      if peeled.Some? {
        OpenInvertsSeal(ciphers, XChaCha, outer, aad, cipher, peeled.value);
        OpenInvertsSeal(ciphers, AesGcm, inner, aad, peeled.value, plain);
      }
    }
  }

  lemma {:induction false} SealAddsOverhead(ciphers: Ciphers, suite: Suite, material: Bytes, aad: Bytes, plain: Bytes)
    requires BothLawful(ciphers) && |material| == MaterialBytes(suite)
    ensures |Seal(ciphers, suite, material, aad, plain)| == |plain| + OverheadBytes(suite)
    decreases suite == Cascade
  {
    if suite == Cascade {
      SealAddsOverhead(ciphers, AesGcm, material[..AES_MATERIAL], aad, plain);
      SealAddsOverhead(ciphers, XChaCha, material[AES_MATERIAL..], aad,
                       Seal(ciphers, AesGcm, material[..AES_MATERIAL], aad, plain));
    }
  }

  // ----- The laws can be met -----

  const TAG: Bytes := seq(16, _ => 0)

  /** A cipher that hides nothing shows that the laws do not contradict each other. */
  const TRANSPARENT: Aead := Aead(
    (k: Bytes, n: Bytes, a: Bytes, p: Bytes) => p + TAG,
    (k: Bytes, n: Bytes, a: Bytes, c: Bytes) =>
      if |c| >= 16 && c[|c| - 16..] == TAG then Some(c[..|c| - 16]) else None)

  lemma LawsAreSatisfiable()
    ensures BothLawful(Ciphers(TRANSPARENT, TRANSPARENT))
  {
    forall k: Bytes, n: Bytes, a: Bytes, p: Bytes
      ensures TRANSPARENT.open(k, n, a, TRANSPARENT.seal(k, n, a, p)) == Some(p)
    {
      assert (p + TAG)[|p|..] == TAG && (p + TAG)[..|p|] == p;
    }
    forall k: Bytes, n: Bytes, a: Bytes, c: Bytes | TRANSPARENT.open(k, n, a, c).Some?
      ensures c == TRANSPARENT.seal(k, n, a, TRANSPARENT.open(k, n, a, c).value)
    {
      assert c == c[..|c| - 16] + TAG;
    }
  }
}
