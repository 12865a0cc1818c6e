/** Per-chunk keys and additional data (js/core/crypto.js), and why a chunk opens only in its own place. */
module Crypto {
  import opened Bytes
  import opened Suites
  import opened Text
  import opened Wrappers

  const ENVELOPE_VERSION := "oreochain-envelope-v1"

  /** HKDF: key, salt, info and the number of bytes wanted. */
  type Hkdf = (Bytes, Bytes, Bytes, nat) -> Bytes

  ghost predicate FullLength(hkdf: Hkdf) {
    forall k, s, i, n :: |hkdf(k, s, i, n)| == n
  }

  function ChunkInfo(suiteName: string, index: nat): string {
    ENVELOPE_VERSION + "/" + suiteName + "/chunk/" + Decimal(index)
  }

  const MANIFEST_INFO := ENVELOPE_VERSION + "/manifest"

  function AadText(fileHash: string, index: nat, totalChunks: nat): string {
    ENVELOPE_VERSION + "|" + fileHash + "|" + Decimal(index) + "|" + Decimal(totalChunks)
  }

  function ChunkAad(fileHash: string, index: nat, totalChunks: nat): Bytes {
    Utf8(AadText(fileHash, index, totalChunks))
  }

  function ChunkMaterial(hkdf: Hkdf, fileKey: Bytes, fileSalt: Bytes, index: nat, bytes: nat, suiteName: string)
    : Bytes
  {
    hkdf(fileKey, fileSalt, Utf8(ChunkInfo(suiteName, index)), bytes)
  }

  function EncryptChunk(hkdf: Hkdf, ciphers: Ciphers, plain: Bytes, fileKey: Bytes, fileSalt: Bytes, index: nat,
                        aad: Bytes, suiteName: string): Result<Bytes, string>
    requires FullLength(hkdf)
  {
    match GetSuite(suiteName)
    case None => Err("unknown cipher suite")
    case Some(suite) =>
      Ok(Seal(ciphers, suite, ChunkMaterial(hkdf, fileKey, fileSalt, index, MaterialBytes(suite), suiteName), aad,
              plain))
  }

  function DecryptChunk(hkdf: Hkdf, ciphers: Ciphers, cipher: Bytes, fileKey: Bytes, fileSalt: Bytes, index: nat,
                        aad: Bytes, suiteName: string): Result<Bytes, string>
    requires FullLength(hkdf)
  {
    match GetSuite(suiteName)
    case None => Err("unknown cipher suite")
    case Some(suite) =>
      var material := ChunkMaterial(hkdf, fileKey, fileSalt, index, MaterialBytes(suite), suiteName);
      match Open(ciphers, suite, material, aad, cipher) {
        case None => Err("chunk failed authentication")
        case Some(plain) => Ok(plain)
      }
  }

  /** Whatever the suite, decrypting in the same place what was encrypted there gives the plaintext. */
  lemma DecryptUndoesEncrypt(hkdf: Hkdf, ciphers: Ciphers, plain: Bytes, fileKey: Bytes, fileSalt: Bytes, index: nat,
                             aad: Bytes, suiteName: string)
    requires FullLength(hkdf) && BothLawful(ciphers) && GetSuite(suiteName).Some?
    ensures var sealed := EncryptChunk(hkdf, ciphers, plain, fileKey, fileSalt, index, aad, suiteName);
      sealed.Ok? && |sealed.value| == |plain| + OverheadBytes(GetSuite(suiteName).value)
      && DecryptChunk(hkdf, ciphers, sealed.value, fileKey, fileSalt, index, aad, suiteName) == Ok(plain)
  {
    var suite := GetSuite(suiteName).value;
    var material := ChunkMaterial(hkdf, fileKey, fileSalt, index, MaterialBytes(suite), suiteName);
    OpenInvertsSeal(ciphers, suite, material, aad, Seal(ciphers, suite, material, aad, plain), plain);
    SealAddsOverhead(ciphers, suite, material, aad, plain);
  }

  // ----- The strings name their place -----

  lemma DecimalHasOnlyDigits(n: nat, c: char)
    requires !IsDigit(c)
    ensures c !in Decimal(n)
  {
  }

  /** The additional data says which file, which chunk and how many: no two places share it. */
  lemma AadNamesPlace(h1: string, i1: nat, n1: nat, h2: string, i2: nat, n2: nat)
    requires '|' !in h1 && '|' !in h2
    requires ChunkAad(h1, i1, n1) == ChunkAad(h2, i2, n2)
    ensures h1 == h2 && i1 == i2 && n1 == n2
  {
    Utf8IsInjective(AadText(h1, i1, n1), AadText(h2, i2, n2));
    var p1, p2 := Place(i1, n1), Place(i2, n2);
    AadTextParts(h1, i1, n1);
    AadTextParts(h2, i2, n2);
    SameTail(ENVELOPE_VERSION + "|", h1 + ['|'] + p1, h2 + ['|'] + p2, AadText(h1, i1, n1), AadText(h2, i2, n2));
    SplitAtSeparator(h1, h2, '|', p1, p2);
    PlaceIsInjective(i1, n1, i2, n2);
  }

  function Place(index: nat, totalChunks: nat): string {
    Decimal(index) + ['|'] + Decimal(totalChunks)
  }

  lemma AadTextParts(h: string, index: nat, totalChunks: nat)
    ensures AadText(h, index, totalChunks) == (ENVELOPE_VERSION + "|") + (h + ['|'] + Place(index, totalChunks))
  {
  }

  lemma PlaceIsInjective(i1: nat, n1: nat, i2: nat, n2: nat)
    requires Place(i1, n1) == Place(i2, n2)
    ensures i1 == i2 && n1 == n2
  {
    DecimalHasOnlyDigits(i1, '|');
    DecimalHasOnlyDigits(i2, '|');
    SplitAtSeparator(Decimal(i1), Decimal(i2), '|', Decimal(n1), Decimal(n2));
    DecimalIsInjective(i1, i2);
    DecimalIsInjective(n1, n2);
  }

  lemma SameTail(head: string, x: string, y: string, s: string, t: string)
    requires s == head + x && t == head + y && s == t
    ensures x == y
  {
    assert x == s[|head|..] && y == t[|head|..];
  }

  /** Key derivation never mixes suites, chunks, or a chunk with the manifest. */
  lemma InfoNamesPurpose(s1: string, i1: nat, s2: string, i2: nat)
    requires '/' !in s1 && '/' !in s2
    ensures Utf8(ChunkInfo(s1, i1)) == Utf8(ChunkInfo(s2, i2)) ==> s1 == s2 && i1 == i2
    ensures Utf8(ChunkInfo(s1, i1)) != Utf8(MANIFEST_INFO)
  {
    var head := ENVELOPE_VERSION + "/";
    var x, y := s1 + ['/'] + ("chunk/" + Decimal(i1)), s2 + ['/'] + ("chunk/" + Decimal(i2));
    assert ChunkInfo(s1, i1) == head + x && ChunkInfo(s2, i2) == head + y;
    if Utf8(ChunkInfo(s1, i1)) == Utf8(ChunkInfo(s2, i2)) {
      Utf8IsInjective(ChunkInfo(s1, i1), ChunkInfo(s2, i2));
      SameTail(head, x, y, ChunkInfo(s1, i1), ChunkInfo(s2, i2));
      SplitAtSeparator(s1, s2, '/', "chunk/" + Decimal(i1), "chunk/" + Decimal(i2));
      SameTail("chunk/", Decimal(i1), Decimal(i2), "chunk/" + Decimal(i1), "chunk/" + Decimal(i2));
      DecimalIsInjective(i1, i2);
    }
    assert x[|s1|] == '/' && x != "manifest" && MANIFEST_INFO == head + "manifest";
    if Utf8(ChunkInfo(s1, i1)) == Utf8(MANIFEST_INFO) {
      Utf8IsInjective(ChunkInfo(s1, i1), MANIFEST_INFO);
      SameTail(head, x, "manifest", ChunkInfo(s1, i1), MANIFEST_INFO);
    }
  }

  lemma SuiteNamesHaveNoSlash(name: string)
    requires GetSuite(name).Some?
    ensures '/' !in name
  {
  }
}
