/**
 * The formats that other programs must agree on, spelled out: what is hashed, what is encrypted under which key and
 * with which additional data, and what a reader refuses.
 */
module WireFormat {
  import opened Base64
  import opened Bytes
  import opened Chunker
  import opened Crypto
  import opened Json
  import opened Manifest
  import opened MerkleTree
  import opened Suites
  import opened Text
  import opened Validate
  import opened Wrappers
  import opened WriterMeetsReader

  // ----- Hashing -----

  /** The roots of one, two and three chunks: leaves under a zero byte, nodes under a one, a lone node promoted. */
  lemma SmallRoots(sha: Sha, a: Bytes, b: Bytes, c: Bytes)
    ensures ChunksRoot(sha, [a]) == sha([0] + a)
    ensures ChunksRoot(sha, [a, b]) == sha([1] + sha([0] + a) + sha([0] + b))
    ensures ChunksRoot(sha, [a, b, c]) == sha([1] + sha([1] + sha([0] + a) + sha([0] + b)) + sha([0] + c))
  {
    var x, y, z := sha([0] + a), sha([0] + b), sha([0] + c);
    assert LeafHashes(sha, [a]) == [x] && LeafHashes(sha, [a, b]) == [x, y] && LeafHashes(sha, [a, b, c]) == [x, y, z];
    assert NextLevel(sha, [x, y]) == [NodeHash(sha, x, y)];
    assert NextLevel(sha, [x, y, z]) == [NodeHash(sha, x, y), z];
    assert NextLevel(sha, [NodeHash(sha, x, y), z]) == [NodeHash(sha, NodeHash(sha, x, y), z)];
    assert Root(sha, [x, y]) == Root(sha, [NodeHash(sha, x, y)]) == NodeHash(sha, x, y);
    assert Root(sha, [x, y, z]) == Root(sha, [NodeHash(sha, x, y), z]);
  }

  /** The verifier answers for exactly the proofs of at most 64 steps, each with 32 bytes and one of the two sides. */
  lemma ProofsAnswered(sha: Sha, leaf: Bytes, proof: Option<seq<RawStep>>, root: Bytes)
    ensures Verified(sha, leaf, proof, root).Ok? <==>
      proof.Some? && |proof.value| <= 64
      && forall i :: 0 <= i < |proof.value| ==>
        proof.value[i].RawStep? && proof.value[i].hash.Some? && |proof.value[i].hash.value| == 32
        && (proof.value[i].side == "left" || proof.value[i].side == "right")
  {
    if proof.Some? {
      forall i | 0 <= i < |proof.value|
        ensures Fault(proof.value[i]).None? <==>
          proof.value[i].RawStep? && proof.value[i].hash.Some? && |proof.value[i].hash.value| == 32
          && (proof.value[i].side == "left" || proof.value[i].side == "right")
      {
      }
    }
  }

  /** The side of a step says where its own hash goes. */
  lemma OneStep(sha: Sha, leaf: Bytes, hash: Digest, root: Bytes)
    ensures Verified(sha, leaf, Some([RawStep(Some(hash), "right")]), root) == Ok(sha([1] + leaf + hash) == root)
    ensures Verified(sha, leaf, Some([RawStep(Some(hash), "left")]), root) == Ok(sha([1] + hash + leaf) == root)
  {
    var right, left := [RawStep(Some(hash), "right")], [RawStep(Some(hash), "left")];
    assert "left" != "right";
    assert ParsedPath(right) == [Step(hash, Right)] && ParsedPath(left) == [Step(hash, Left)];
    assert [Step(hash, Right)][..0] == [] && [Step(hash, Left)][..0] == [];
    assert Fold(sha, leaf, []) == leaf;
  }

  // ----- Encrypting -----

  lemma EnvelopeStrings()
    ensures ENVELOPE_VERSION + "|" == "oreochain-envelope-v1|" && ENVELOPE_VERSION + "/" == "oreochain-envelope-v1/"
    ensures MANIFEST_INFO == "oreochain-envelope-v1/manifest"
    ensures MANIFEST_AAD == "oreochain-envelope-v1/manifest-body"
  {
  }

  /** What is stored for a chunk, suite by suite; the cascade seals under AES first and XChaCha20 around it. */
  lemma EncryptedPayload(p: Platform, o: Options, random: Random, fileHash: string, index: nat, total: nat,
                         plain: Bytes)
    requires FullLength(p.hkdf) && Encrypts(o)
    ensures var aad := Utf8("oreochain-envelope-v1|" + fileHash + "|" + Decimal(index) + "|" + Decimal(total));
      var info := Utf8("oreochain-envelope-v1/" + o.suite + "/chunk/" + Decimal(index));
      var key, salt := random.fileKey, random.fileSalt;
      (o.suite == "aes-256-gcm" ==>
         var m := p.hkdf(key, salt, info, 44);
         GetSuite(o.suite).Some?
         && PayloadOf(p, o, random, fileHash, index, total, plain) == p.ciphers.aes.seal(m[..32], m[32..], aad, plain))
      && (o.suite == "xchacha20-poly1305" ==>
            var m := p.hkdf(key, salt, info, 56);
            GetSuite(o.suite).Some?
            && PayloadOf(p, o, random, fileHash, index, total, plain)
            == p.ciphers.xchacha.seal(m[..32], m[32..], aad, plain))
      && (o.suite == "cascade-aes-xchacha" ==>
            var m := p.hkdf(key, salt, info, 100);
            GetSuite(o.suite).Some?
            && PayloadOf(p, o, random, fileHash, index, total, plain)
            == p.ciphers.xchacha.seal(m[44..76], m[76..], aad, p.ciphers.aes.seal(m[..32], m[32..44], aad, plain)))
  {
    EnvelopeStrings();
    assert ChunkAad(fileHash, index, total)
        == Utf8("oreochain-envelope-v1|" + fileHash + "|" + Decimal(index) + "|" + Decimal(total));
    if o.suite == "cascade-aes-xchacha" {
      var m := p.hkdf(random.fileKey, random.fileSalt, Utf8(ChunkInfo(o.suite, index)), 100);
      assert m[44..][..32] == m[44..76] && m[44..][32..] == m[76..];
      assert m[..44][..32] == m[..32] && m[..44][32..] == m[32..44];
    }
  }

  /** Opening a cascade takes both ciphers, XChaCha20 first. */
  lemma CascadeTakesBoth(ciphers: Ciphers, material: Bytes, aad: Bytes, cipher: Bytes, plain: Bytes)
    requires |material| == 100
    ensures Open(ciphers, Cascade, material, aad, cipher) == Some(plain)
       <==> var inner := ciphers.xchacha.open(material[44..76], material[76..], aad, cipher);
            inner.Some? && ciphers.aes.open(material[..32], material[32..44], aad, inner.value) == Some(plain)
  {
    assert material[44..][..32] == material[44..76] && material[44..][32..] == material[76..];
    assert material[..44][..32] == material[..32] && material[..44][32..] == material[32..44];
  }

  /** The wrapped file key and the sealed body of an encrypted manifest. */
  lemma SealedParts(p: Platform, keys: Keys, iv: Bytes, body: Body)
    requires FullLength(p.hkdf)
    ensures WrappedKey(p, keys, iv)
         == p.ciphers.aes.seal(p.stretch(keys.passphrase, keys.kdfSalt, keys.kdf), iv, Utf8("oreochain-envelope-v1"),
                               keys.fileKey)
    ensures var m := p.hkdf(keys.fileKey, keys.fileSalt, Utf8("oreochain-envelope-v1/manifest"), 44);
      SealedBody(p, keys, body)
      == p.ciphers.aes.seal(m[..32], m[32..], Utf8("oreochain-envelope-v1/manifest-body"),
                            Utf8(p.stringify(BodyJson(body))))
  {
    EnvelopeStrings();
  }

  /** The fields of every sealed manifest. */
  lemma ManifestShows(p: Platform, packed: Packed, locations: seq<string>, iv: Bytes, m: Json)
    requires FullLength(p.hkdf) && |packed.chunks| == packed.totalChunks
    requires SealManifest(p, packed, locations, iv) == Ok(m)
    ensures Get(m, "version") == Str("oreochain-manifest-v1") && Get(m, "envelope") == Str("oreochain-envelope-v1")
    ensures Get(m, "createdAt") == Str(p.clock) && Get(m, "encrypted") == Bool(packed.keys.Some?)
    ensures Get(m, "suite") == if packed.suite.Some? then Str(packed.suite.value) else Null
    ensures Get(m, "fileHash") == Str(packed.fileHash) && Get(m, "merkleRoot") == Str(packed.merkleRoot)
    ensures Get(m, "chunkSize") == Num(packed.chunkSize as real) && Get(m, "fileSize") == Num(packed.fileSize as real)
    ensures Get(m, "totalChunks") == Num(packed.totalChunks as real)
  {
    var body := BodyOf(packed, locations);
    if packed.keys.Some? {
      SecretFieldsRead(p, packed.keys.value, iv, body, SecretFields(p, packed.keys.value, iv, body));
      FieldsShow(packed, p.clock, SecretFields(p, packed.keys.value, iv, body));
    } else {
      FieldsShow(packed, p.clock, map["body" := BodyJson(body)]);
    }
  }

  lemma FieldsShow(packed: Packed, clock: string, rest: map<string, Json>)
    requires rest.Keys <= {"kdf", "fileSalt", "wrappedKey", "body"}
    ensures var m := Obj(PublicFields(packed, clock) + rest);
      Get(m, "version") == Str("oreochain-manifest-v1") && Get(m, "envelope") == Str("oreochain-envelope-v1")
      && Get(m, "createdAt") == Str(clock)
      && Get(m, "suite") == if packed.suite.Some? then Str(packed.suite.value) else Null
    ensures var m := Obj(PublicFields(packed, clock) + rest);
      Get(m, "encrypted") == Bool(packed.keys.Some?) && Get(m, "fileHash") == Str(packed.fileHash)
      && Get(m, "merkleRoot") == Str(packed.merkleRoot)
    ensures var m := Obj(PublicFields(packed, clock) + rest);
      Get(m, "chunkSize") == Num(packed.chunkSize as real) && Get(m, "fileSize") == Num(packed.fileSize as real)
      && Get(m, "totalChunks") == Num(packed.totalChunks as real)
  {
    ManifestFields(packed, clock, rest);
    OwnFields(packed, clock, rest, "envelope");
    OwnFields(packed, clock, rest, "createdAt");
    OwnFields(packed, clock, rest, "suite");
  }

  lemma OwnFields(packed: Packed, clock: string, rest: map<string, Json>, key: string)
    requires key in PublicFields(packed, clock) && key !in rest
    ensures Get(Obj(PublicFields(packed, clock) + rest), key) == PublicFields(packed, clock)[key]
  {
  }

  // ----- Limits -----

  /** The limits a manifest is read under unless the caller sets others. */
  lemma DefaultLimits()
    ensures MANIFEST_LIMITS.maxTotalChunks == 4_000_000 && MANIFEST_LIMITS.maxFileSize == 1024 * 1024 * 1024 * 1024
    ensures MANIFEST_LIMITS.maxChunkSize == 64 * 1024 * 1024 && MANIFEST_LIMITS.maxAeadOverhead == 64
    ensures MANIFEST_LIMITS.maxManifestBytes == 128 * 1024 * 1024
    ensures MANIFEST_LIMITS.maxInMemoryBytes == 512 * 1024 * 1024
    ensures MANIFEST_LIMITS.minIterations == 600_000 && MANIFEST_LIMITS.maxIterations == 50_000_000
    ensures MANIFEST_LIMITS.minArgon2MemoryKiB == 19_456 && MANIFEST_LIMITS.maxArgon2MemoryKiB == 2 * 1024 * 1024
    ensures MANIFEST_LIMITS.minArgon2Iterations == 1 && MANIFEST_LIMITS.maxArgon2Iterations == 16
    ensures MANIFEST_LIMITS.minArgon2Parallelism == 1 && MANIFEST_LIMITS.maxArgon2Parallelism == 16
  {
  }

  // ----- Refusing -----

  /** A location is base64url text: base64 with `-` and `_` for `+` and `/`, and no padding. */
  lemma LocationIsBase64Url(s: string)
    ensures IsLocation(s) <==>
      1 <= |s| <= 512
      && forall i :: 0 <= i < |s| ==>
        s[i] == '-' || s[i] == '_' || (IsBase64Char(s[i]) && s[i] != '+' && s[i] != '/')
  {
  }

  /** One member under one of three keys, at any depth, is enough to be refused; under any other key it is not. */
  lemma KeyPollutes(key: string, j: Json)
    ensures Polluted(Obj(map[key := j])) <==>
      key == "__proto__" || key == "constructor" || key == "prototype" || Polluted(j)
    ensures Polluted(Arr([j])) <==> Polluted(j)
  {
    var m := map[key := j];
    assert key in m && m[key] == j;
    assert [j][0] == j;
  }
}
