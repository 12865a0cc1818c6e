/** Whatever the writer accepts and seals, the reader accepts and opens to the same thing. */
module WriterMeetsReader {
  import opened Base64
  import opened Bytes
  import opened Chunker
  import opened Crypto
  import opened Doubles
  import opened Hex
  import opened Json
  import opened Manifest
  import opened MerkleTree
  import opened Numbers
  import opened Suites
  import opened Text
  import opened Validate
  import opened Wrappers

  predicate Named(fileName: string, mimeType: string) {
    fileName != "" && Utf16Length(fileName) <= 512 && mimeType != "" && Utf16Length(mimeType) <= 255
  }

  /** What encryption adds to every chunk. */
  function Overhead(o: Options): nat
    requires Encrypts(o) ==> GetSuite(o.suite).Some?
  {
    if Encrypts(o) then OverheadBytes(GetSuite(o.suite).value) else 0
  }

  /** What the format itself asks of names, locations, KDF parameters and sizes beyond what the writer checks. */
  predicate Presentable(p: Platform, file: Bytes, o: Options, packed: Packed, locations: seq<string>)
    requires FullLength(p.hkdf) && |packed.chunks| == packed.totalChunks && Accepts(|file|, o)
  {
    Named(packed.fileName, packed.mimeType)
    && |locations| == packed.totalChunks && (forall i :: 0 <= i < |locations| ==> IsLocation(locations[i]))
    && Min(|file|, o.chunkSize) + Overhead(o) <= o.chunkSize + o.limits.maxAeadOverhead
    && (packed.keys.Some? ==>
          KdfWithin(packed.keys.value.kdf, o.limits)
          && |ToBase64(SealedBody(p, packed.keys.value, BodyOf(packed, locations)))| <= o.limits.maxManifestBytes)
  }

  /** Lengths of arrays stay below 2^53 in JavaScript: the file's, and that of the largest payload. */
  predicate Holdable(file: Bytes, o: Options)
    requires Encrypts(o) ==> GetSuite(o.suite).Some?
  {
    |file| < EXACT && Min(|file|, o.chunkSize) + Overhead(o) < EXACT
  }

  // ----- Reading single fields back -----

  lemma NumberIsReadBack(n: int, min: int, max: int)
    requires min <= n <= max
    ensures RequireInteger(Num(n as real), min, max) == Ok(n)
  {
  }

  lemma Base64IsReadBack(bytes: Bytes, max: nat)
    requires bytes != [] && (|bytes| + 2) / 3 * 4 <= max
    ensures RequireBase64(Str(ToBase64(bytes)), max) == Ok(ToBase64(bytes))
  {
    FromUndoesToBase64(bytes);
    Base64Length(ToBase64(bytes));
  }

  lemma Base64Length(s: string)
    requires IsBase64(s)
    ensures Utf16Length(s) == |s|
  {
    Utf16LengthOfBasic(s);
  }

  lemma HashIsReadBack(s: string)
    requires IsHex32(s)
    ensures RequireHash(Str(s)) == Ok(s)
  {
    Utf16LengthOfBasic(s);
  }

  lemma LocationIsReadBack(s: string)
    requires IsLocation(s)
    ensures RequireLocation(Str(s)) == Ok(s)
  {
    Utf16LengthOfBasic(s);
  }

  /** Short names of the format's own are read back whole. */
  lemma ShortNameIsReadBack(s: string)
    requires 0 < |s| <= 32
    ensures RequireString(Str(s), 64) == Ok(s)
  {
    Utf16LengthBounds(s);
  }

  lemma KdfIsReadBack(kdf: Kdf, salt: string, limits: Limits)
    requires KdfWithin(kdf, limits)
    ensures var j := KdfJson(kdf, salt);
      Get(j, "salt") == Str(salt) && Get(j, "name").Str? && 0 < |Get(j, "name").text| <= 32
      && ValidateKdfParameters(j, Get(j, "name").text, limits) == Ok(kdf)
  {
    var j := KdfJson(kdf, salt);
    if kdf.Argon2id? {
      assert ToLower("argon2id") == "argon2id";
      NumberIsReadBack(kdf.memoryKiB, limits.minArgon2MemoryKiB, limits.maxArgon2MemoryKiB);
      NumberIsReadBack(kdf.iterations, limits.minArgon2Iterations, limits.maxArgon2Iterations);
      NumberIsReadBack(kdf.parallelism, limits.minArgon2Parallelism, limits.maxArgon2Parallelism);
    } else {
      assert ToLower("pbkdf2-sha256") == "pbkdf2-sha256";
      NumberIsReadBack(kdf.iterations, limits.minIterations, limits.maxIterations);
    }
  }

  lemma EntryIsReadBack(e: Entry, totalChunks: nat, chunkSize: nat, limits: Limits)
    requires Fits(e, totalChunks, chunkSize, limits)
    ensures ValidateEntry(EntryJson(e), totalChunks, chunkSize, limits) == Ok(e)
  {
    LocationIsReadBack(e.location);
    HashIsReadBack(e.plainHash);
    HashIsReadBack(e.payloadHash);
    NumberIsReadBack(e.index, 0, totalChunks - 1);
    NumberIsReadBack(e.plainSize, 0, chunkSize);
    NumberIsReadBack(e.storedSize, 0, chunkSize + limits.maxAeadOverhead);
  }

  // ----- The header -----

  function HeaderOf(p: Platform, packed: Packed, locations: seq<string>, iv: Bytes): Header
    requires FullLength(p.hkdf) && |locations| == |packed.chunks|
  {
    var body := BodyOf(packed, locations);
    Header(MANIFEST_VERSION, packed.fileHash, packed.merkleRoot, packed.keys.Some?, packed.totalChunks,
           packed.fileSize, packed.chunkSize,
           if packed.keys.Some? then Some(SecretsOf(p, packed, iv)) else None,
           if packed.keys.Some? then Str(ToBase64(SealedBody(p, packed.keys.value, body))) else BodyJson(body))
  }

  function SecretsOf(p: Platform, packed: Packed, iv: Bytes): Secrets
    requires packed.keys.Some?
  {
    var keys := packed.keys.value;
    Secrets(keys.kdf, ToBase64(keys.kdfSalt), ToBase64(keys.fileSalt), ToBase64(iv),
            ToBase64(WrappedKey(p, keys, iv)), if packed.suite.Some? then packed.suite.value else "")
  }

  /** The manifest object, field by field. */
  lemma ManifestFields(packed: Packed, createdAt: string, rest: map<string, Json>)
    requires rest.Keys <= {"kdf", "fileSalt", "wrappedKey", "body"}
    ensures var m := Obj(PublicFields(packed, createdAt) + rest);
      Get(m, "version") == Str(MANIFEST_VERSION) && Get(m, "encrypted") == Bool(packed.keys.Some?)
      && Get(m, "fileHash") == Str(packed.fileHash) && Get(m, "merkleRoot") == Str(packed.merkleRoot)
    ensures var m := Obj(PublicFields(packed, createdAt) + rest);
      Get(m, "totalChunks") == Num(packed.totalChunks as real)
      && Get(m, "fileSize") == Num(packed.fileSize as real)
      && Get(m, "chunkSize") == Num(packed.chunkSize as real)
    ensures packed.suite.Some? ==> Get(Obj(PublicFields(packed, createdAt) + rest), "suite") == Str(packed.suite.value)
    ensures forall key :: key in rest ==> Get(Obj(PublicFields(packed, createdAt) + rest), key) == rest[key]
  {
  }

  lemma SecretsFromFields(m: Json, limits: Limits, s: Secrets, name: string)
    requires Get(m, "kdf").Obj? && Get(m, "wrappedKey").Obj?
    requires RequireString(Get(Get(m, "kdf"), "name"), 64) == Ok(name)
    requires RequireBase64(Get(Get(m, "kdf"), "salt"), 128) == Ok(s.kdfSalt)
    requires ValidateKdfParameters(Get(m, "kdf"), name, limits) == Ok(s.kdf)
    requires RequireBase64(Get(m, "fileSalt"), 128) == Ok(s.fileSalt)
    requires RequireBase64(Get(Get(m, "wrappedKey"), "iv"), 64) == Ok(s.iv)
    requires RequireBase64(Get(Get(m, "wrappedKey"), "ciphertext"), 256) == Ok(s.wrapped)
    requires RequireString(Get(m, "suite"), 64) == Ok(s.suite)
    requires RequireBase64(Get(m, "body"), limits.maxManifestBytes).Ok?
    ensures ValidateSecrets(m, limits) == Ok(s)
  {
  }

  /** The body sealed for an encrypted manifest is never empty: it carries a tag. */
  lemma SealedBodyHasTag(p: Platform, keys: Keys, body: Body)
    requires LawfulPlatform(p)
    ensures |SealedBody(p, keys, body)| >= 16
  {
    SealAddsOverhead(p.ciphers, AesGcm, ManifestKey(p, keys.fileKey, keys.fileSalt), Utf8(MANIFEST_AAD),
                     Utf8(p.stringify(BodyJson(body))));
  }

  predicate SecretsFit(p: Platform, packed: Packed, locations: seq<string>, iv: Bytes, limits: Limits)
    requires FullLength(p.hkdf) && |locations| == |packed.chunks| && packed.keys.Some?
  {
    var keys := packed.keys.value;
    |keys.fileKey| == 32 && |keys.fileSalt| == 16 && |keys.kdfSalt| == 16 && |iv| == 12
    && KdfWithin(keys.kdf, limits) && packed.suite.Some? && 0 < |packed.suite.value| <= 32
    && |ToBase64(SealedBody(p, keys, BodyOf(packed, locations)))| <= limits.maxManifestBytes
  }

  /** The fields of an encrypted manifest that hold its secrets. */
  predicate CarriesSecrets(p: Platform, keys: Keys, suite: string, iv: Bytes, body: Body, m: Json)
    requires FullLength(p.hkdf)
  {
    Get(m, "kdf") == KdfJson(keys.kdf, ToBase64(keys.kdfSalt))
    && Get(m, "fileSalt") == Str(ToBase64(keys.fileSalt)) && Get(m, "suite") == Str(suite)
    && Get(m, "wrappedKey") == WrappedJson(ToBase64(iv), ToBase64(WrappedKey(p, keys, iv)))
    && Get(m, "body") == Str(ToBase64(SealedBody(p, keys, body)))
  }

  lemma SecretFieldsRead(p: Platform, keys: Keys, iv: Bytes, body: Body, rest: map<string, Json>)
    requires FullLength(p.hkdf) && rest == SecretFields(p, keys, iv, body)
    ensures rest.Keys == {"kdf", "fileSalt", "wrappedKey", "body"}
    ensures rest["kdf"] == KdfJson(keys.kdf, ToBase64(keys.kdfSalt))
    ensures rest["fileSalt"] == Str(ToBase64(keys.fileSalt))
    ensures rest["wrappedKey"] == WrappedJson(ToBase64(iv), ToBase64(WrappedKey(p, keys, iv)))
    ensures rest["body"] == Str(ToBase64(SealedBody(p, keys, body)))
  {
    SecretMapRead(KdfJson(keys.kdf, ToBase64(keys.kdfSalt)), ToBase64(keys.fileSalt),
                  WrappedJson(ToBase64(iv), ToBase64(WrappedKey(p, keys, iv))), ToBase64(SealedBody(p, keys, body)));
  }

  lemma SecretMapRead(kdf: Json, fileSalt: string, wrappedKey: Json, body: string)
    ensures var rest := SecretMap(kdf, fileSalt, wrappedKey, body);
      rest.Keys == {"kdf", "fileSalt", "wrappedKey", "body"} && rest["kdf"] == kdf
      && rest["fileSalt"] == Str(fileSalt) && rest["wrappedKey"] == wrappedKey && rest["body"] == Str(body)
  {
  }

  lemma SealingCarriesSecrets(p: Platform, packed: Packed, createdAt: string, iv: Bytes, body: Body, m: Json,
                              rest: map<string, Json>)
    requires FullLength(p.hkdf) && packed.keys.Some? && packed.suite.Some?
    requires rest == SecretFields(p, packed.keys.value, iv, body) && m == Obj(PublicFields(packed, createdAt) + rest)
    ensures CarriesSecrets(p, packed.keys.value, packed.suite.value, iv, body, m)
  {
    SecretFieldsRead(p, packed.keys.value, iv, body, rest);
    ManifestFields(packed, createdAt, rest);
    RestField(PublicFields(packed, createdAt), rest, "kdf");
    RestField(PublicFields(packed, createdAt), rest, "fileSalt");
    RestField(PublicFields(packed, createdAt), rest, "wrappedKey");
    RestField(PublicFields(packed, createdAt), rest, "body");
  }

  lemma RestField(base: map<string, Json>, rest: map<string, Json>, key: string)
    requires key in rest
    ensures Get(Obj(base + rest), key) == rest[key]
  {
  }

  lemma WrappedIsReadBack(iv: Bytes, wrapped: Bytes)
    requires |iv| == 12 && |wrapped| == 48
    ensures var j := WrappedJson(ToBase64(iv), ToBase64(wrapped));
      j.Obj? && RequireBase64(Get(j, "iv"), 64) == Ok(ToBase64(iv))
      && RequireBase64(Get(j, "ciphertext"), 256) == Ok(ToBase64(wrapped))
  {
    Base64IsReadBack(iv, 64);
    Base64IsReadBack(wrapped, 256);
  }

  lemma SealedBodyIsReadBack(p: Platform, keys: Keys, body: Body, max: nat)
    requires LawfulPlatform(p) && |ToBase64(SealedBody(p, keys, body))| <= max
    ensures RequireBase64(Str(ToBase64(SealedBody(p, keys, body))), max).Ok?
  {
    SealedBodyHasTag(p, keys, body);
    FromUndoesToBase64(SealedBody(p, keys, body));
    Base64IsReadBack(SealedBody(p, keys, body), max);
  }

  lemma SecretsAreReadBack(p: Platform, packed: Packed, locations: seq<string>, iv: Bytes, limits: Limits, m: Json)
    requires LawfulPlatform(p) && |locations| == |packed.chunks| && packed.keys.Some?
    requires SecretsFit(p, packed, locations, iv, limits)
    requires CarriesSecrets(p, packed.keys.value, packed.suite.value, iv, BodyOf(packed, locations), m)
    ensures ValidateSecrets(m, limits) == Ok(SecretsOf(p, packed, iv))
  {
    var keys := packed.keys.value;
    KdfIsReadBack(keys.kdf, ToBase64(keys.kdfSalt), limits);
    Base64IsReadBack(keys.kdfSalt, 128);
    Base64IsReadBack(keys.fileSalt, 128);
    WrappedIsReadBack(iv, WrappedKey(p, keys, iv));
    SealedBodyIsReadBack(p, keys, BodyOf(packed, locations), limits.maxManifestBytes);
    ShortNameIsReadBack(Get(Get(m, "kdf"), "name").text);
    ShortNameIsReadBack(packed.suite.value);
    SecretsFromFields(m, limits, SecretsOf(p, packed, iv), Get(Get(m, "kdf"), "name").text);
  }

  lemma HeaderFromFields(m: Json, limits: Limits, h: Header)
    requires m.Obj? && Get(m, "encrypted") == Bool(h.encrypted) && (h.encrypted <==> h.secrets.Some?)
    requires RequireString(Get(m, "version"), 64) == Ok(h.version)
    requires RequireHash(Get(m, "fileHash")) == Ok(h.fileHash)
    requires RequireHash(Get(m, "merkleRoot")) == Ok(h.merkleRoot)
    requires RequireNat(Get(m, "totalChunks"), 1, limits.maxTotalChunks) == Ok(h.totalChunks)
    requires RequireNat(Get(m, "fileSize"), 0, limits.maxFileSize) == Ok(h.fileSize)
    requires RequireNat(Get(m, "chunkSize"), 1, limits.maxChunkSize) == Ok(h.chunkSize)
    requires h.totalChunks == ChunkCount(h.fileSize, h.chunkSize) && Get(m, "body") == h.body
    requires if h.encrypted then ValidateSecrets(m, limits) == Ok(h.secrets.value) && h.body.Str? else h.body.Obj?
    ensures ValidateManifestHeader(m, limits) == Ok(h)
  {
  }

  lemma HeaderIsReadBack(p: Platform, packed: Packed, locations: seq<string>, iv: Bytes, limits: Limits)
    requires LawfulPlatform(p) && |locations| == |packed.chunks| == packed.totalChunks && "" !in locations
    requires IsHex32(packed.fileHash) && IsHex32(packed.merkleRoot)
    requires ShapeWithin(packed.totalChunks, packed.fileSize, packed.chunkSize, limits)
    requires packed.keys.Some? ==> SecretsFit(p, packed, locations, iv, limits)
    ensures ValidateManifestHeader(SealManifest(p, packed, locations, iv).value, limits)
         == Ok(HeaderOf(p, packed, locations, iv))
  {
    var body := BodyOf(packed, locations);
    var m := SealManifest(p, packed, locations, iv).value;
    if packed.keys.Some? {
      var rest := SecretFields(p, packed.keys.value, iv, body);
      SealingCarriesSecrets(p, packed, p.clock, iv, body, m, rest);
      SecretsAreReadBack(p, packed, locations, iv, limits, m);
      SecretFieldsRead(p, packed.keys.value, iv, body, rest);
      HeaderPartsAreReadBack(packed, p.clock, rest, m, limits, HeaderOf(p, packed, locations, iv));
    } else {
      HeaderPartsAreReadBack(packed, p.clock, map["body" := BodyJson(body)], m, limits,
                             HeaderOf(p, packed, locations, iv));
    }
  }

  lemma HeaderPartsAreReadBack(packed: Packed, createdAt: string, rest: map<string, Json>, m: Json, limits: Limits,
                               h: Header)
    requires m == Obj(PublicFields(packed, createdAt) + rest) && rest.Keys <= {"kdf", "fileSalt", "wrappedKey", "body"}
    requires IsHex32(packed.fileHash) && IsHex32(packed.merkleRoot)
    requires ShapeWithin(packed.totalChunks, packed.fileSize, packed.chunkSize, limits)
    requires h == Header(MANIFEST_VERSION, packed.fileHash, packed.merkleRoot, packed.keys.Some?, packed.totalChunks,
                         packed.fileSize, packed.chunkSize, h.secrets, h.body)
    requires "body" in rest && rest["body"] == h.body && (h.encrypted <==> h.secrets.Some?)
    requires if h.encrypted then ValidateSecrets(m, limits) == Ok(h.secrets.value) && h.body.Str? else h.body.Obj?
    ensures ValidateManifestHeader(m, limits) == Ok(h)
  {
    ManifestFields(packed, createdAt, rest);
    HashIsReadBack(packed.fileHash);
    HashIsReadBack(packed.merkleRoot);
    ShortNameIsReadBack(MANIFEST_VERSION);
    NumberIsReadBack(packed.totalChunks, 1, limits.maxTotalChunks);
    NumberIsReadBack(packed.fileSize, 0, limits.maxFileSize);
    NumberIsReadBack(packed.chunkSize, 1, limits.maxChunkSize);
    HeaderFromFields(m, limits, h);
  }

  // ----- The body -----

  lemma BodyJsonIsClean(b: Body)
    ensures !Polluted(BodyJson(b))
  {
    forall i | 0 <= i < |b.chunks| ensures !Polluted(EntryJson(b.chunks[i])) {
      EntryJsonIsClean(b.chunks[i]);
    }
    var fields := BodyJson(b).fields;
    assert fields.Keys == {"fileName", "mimeType", "chunks"};
    assert fields["chunks"].items == seq(|b.chunks|, i requires 0 <= i < |b.chunks| => EntryJson(b.chunks[i]));
  }

  lemma EntryJsonIsClean(e: Entry)
    ensures !Polluted(EntryJson(e))
  {
    assert EntryJson(e).fields.Keys
        == {"index", "location", "plainHash", "payloadHash", "plainSize", "storedSize"};
  }

  predicate HeldEntries(chunks: seq<Entry>) {
    forall e :: e in chunks ==> e.index < EXACT && e.plainSize < EXACT && e.storedSize < EXACT
  }

  lemma BodyJsonIsHeld(b: Body)
    requires HeldEntries(b.chunks)
    ensures HeldNumbers(BodyJson(b))
  {
    forall i | 0 <= i < |b.chunks| ensures HeldNumbers(EntryJson(b.chunks[i])) {
      assert b.chunks[i] in b.chunks;
      EntryJsonIsHeld(b.chunks[i]);
    }
    var fields := BodyJson(b).fields;
    assert fields.Keys == {"fileName", "mimeType", "chunks"};
    assert fields["chunks"].items == seq(|b.chunks|, i requires 0 <= i < |b.chunks| => EntryJson(b.chunks[i]));
  }

  lemma EntryJsonIsHeld(e: Entry)
    requires e.index < EXACT && e.plainSize < EXACT && e.storedSize < EXACT
    ensures HeldNumbers(EntryJson(e))
  {
    IntegersAreDoubles(e.index);
    IntegersAreDoubles(e.plainSize);
    IntegersAreDoubles(e.storedSize);
  }

  lemma BodyIsReadBack(b: Body, h: Header, limits: Limits)
    requires Named(b.fileName, b.mimeType)
    requires h.totalChunks == |b.chunks| > 0 && DistinctIndices(b.chunks) && PlainTotal(b.chunks) == h.fileSize
    requires forall i :: 0 <= i < |b.chunks| ==> Fits(b.chunks[i], h.totalChunks, h.chunkSize, limits)
    ensures Describes(BodyJson(b), b, h, limits)
  {
    BodyJsonIsClean(b);
    var j := BodyJson(b);
    forall i | 0 <= i < |b.chunks|
      ensures ValidateEntry(Get(j, "chunks").items[i], h.totalChunks, h.chunkSize, limits) == Ok(b.chunks[i])
    {
      EntryIsReadBack(b.chunks[i], h.totalChunks, h.chunkSize, limits);
    }
    assert TableDescribes(Get(j, "chunks").items, b.chunks, h, limits);
  }

  predicate Fits(e: Entry, totalChunks: nat, chunkSize: nat, limits: Limits) {
    e.index < totalChunks && IsLocation(e.location) && IsHex32(e.plainHash) && IsHex32(e.payloadHash)
    && e.plainSize <= chunkSize && e.storedSize <= chunkSize + limits.maxAeadOverhead
  }

  lemma {:induction false} TotalIsJoinedLength(entries: seq<Entry>, parts: seq<Bytes>)
    requires |entries| == |parts| && forall i :: 0 <= i < |parts| ==> entries[i].plainSize == |parts[i]|
    ensures PlainTotal(entries) == |Join(parts)|
  {
    if parts != [] {
      var n := |parts| - 1;
      TotalIsJoinedLength(entries[..n], parts[..n]);
      assert parts == parts[..n] + [parts[n]];
      JoinSplitsAt(parts[..n], [parts[n]]);
    }
  }

  // ----- The whole path -----

  function OpenedOf(packed: Packed, locations: seq<string>): Opened
    requires |locations| == |packed.chunks|
  {
    Opened(if packed.keys.Some? then Some(OpenKeys(packed.keys.value.fileKey, packed.keys.value.fileSalt)) else None,
           BodyOf(packed, locations))
  }

  lemma PayloadSize(p: Platform, o: Options, random: Random, fileHash: string, index: nat, total: nat, plain: Bytes)
    requires LawfulPlatform(p) && (Encrypts(o) ==> GetSuite(o.suite).Some?)
    ensures |PayloadOf(p, o, random, fileHash, index, total, plain)|
         == |plain| + Overhead(o)
  {
    if Encrypts(o) {
      DecryptUndoesEncrypt(p.hkdf, p.ciphers, plain, random.fileKey, random.fileSalt, index,
                           ChunkAad(fileHash, index, total), o.suite);
    }
  }

  lemma PackedEntryFits(p: Platform, file: Bytes, o: Options, random: Random, locations: seq<string>, i: nat)
    requires LawfulPlatform(p) && Accepts(|file|, o)
    requires Presentable(p, file, o, PackedOf(p, file, o, random), locations) && i < |locations|
    ensures Fits(BodyOf(PackedOf(p, file, o, random), locations).chunks[i], |locations|, o.chunkSize, o.limits)
    ensures BodyOf(PackedOf(p, file, o, random), locations).chunks[i].index == i
    ensures BodyOf(PackedOf(p, file, o, random), locations).chunks[i].plainSize == |Chunks(file, o.chunkSize)[i]|
  {
    var plain := Chunks(file, o.chunkSize);
    ChunkShape(file, o.chunkSize);
    var c := PackedOf(p, file, o, random).chunks[i];
    assert c == PackChunk(p, o, random, To0x(p.sha(file)), i, |plain|, plain[i]);
    PayloadSize(p, o, random, To0x(p.sha(file)), i, |plain|, plain[i]);
    DecodedUndoesTo0x(c.plainHash);
    DecodedUndoesTo0x(c.payloadHash);
  }

  lemma PackedBodyIsDescribed(p: Platform, file: Bytes, o: Options, random: Random, locations: seq<string>, h: Header)
    requires LawfulPlatform(p) && Accepts(|file|, o)
    requires Presentable(p, file, o, PackedOf(p, file, o, random), locations)
    requires h.totalChunks == |locations| && h.fileSize == |file| && h.chunkSize == o.chunkSize
    ensures var body := BodyOf(PackedOf(p, file, o, random), locations);
      h.totalChunks > 0 && Describes(BodyJson(body), body, h, o.limits)
  {
    var body := BodyOf(PackedOf(p, file, o, random), locations);
    var plain := Chunks(file, o.chunkSize);
    ChunksExist(file, o.chunkSize);
    forall i | 0 <= i < |locations|
      ensures body.chunks[i].index == i && body.chunks[i].plainSize == |plain[i]|
      ensures Fits(body.chunks[i], |locations|, o.chunkSize, o.limits)
    {
      PackedEntryFits(p, file, o, random, locations, i);
    }
    TotalIsJoinedLength(body.chunks, plain);
    JoinUndoesChunks(file, o.chunkSize);
    BodyIsReadBack(body, h, o.limits);
  }

  lemma PackedEntriesAreHeld(p: Platform, file: Bytes, o: Options, random: Random, locations: seq<string>)
    requires LawfulPlatform(p) && Accepts(|file|, o) && Holdable(file, o)
    requires |locations| == |PackedOf(p, file, o, random).chunks|
    ensures HeldEntries(BodyOf(PackedOf(p, file, o, random), locations).chunks)
  {
    var plain, packed := Chunks(file, o.chunkSize), PackedOf(p, file, o, random);
    var entries := BodyOf(packed, locations).chunks;
    ChunkShape(file, o.chunkSize);
    CountIsSmall(|file|, o.chunkSize);
    forall i | 0 <= i < |entries|
      ensures entries[i].index < EXACT && entries[i].plainSize < EXACT && entries[i].storedSize < EXACT
    {
      assert packed.chunks[i] == PackChunk(p, o, random, To0x(p.sha(file)), i, |plain|, plain[i]);
      PayloadSize(p, o, random, To0x(p.sha(file)), i, |plain|, plain[i]);
    }
  }

  lemma CountIsSmall(size: nat, chunkSize: nat)
    requires chunkSize > 0
    ensures ChunkCount(size, chunkSize) <= size + 1
  {
    var n := size + chunkSize - 1;
    assert (n / chunkSize) * chunkSize + n % chunkSize == n;
    if n / chunkSize > size {
      TimesAtLeast(n / chunkSize, size + 1, chunkSize);
      assert (size + 1) * chunkSize == size * chunkSize + chunkSize;
      TimesAtLeast(chunkSize, 1, size);
    }
  }

  lemma TimesAtLeast(a: nat, b: nat, c: nat)
    requires a >= b
    ensures a * c >= b * c
  {
  }

  lemma FileKeyIsUnwrapped(p: Platform, packed: Packed, iv: Bytes)
    requires LawfulPlatform(p) && packed.keys.Some? && |packed.keys.value.kdfSalt| == 16
    ensures UnwrapFileKey(p, SecretsOf(p, packed, iv), packed.keys.value.passphrase) == Ok(packed.keys.value.fileKey)
  {
    var keys := packed.keys.value;
    FromUndoesToBase64(keys.kdfSalt);
    FromUndoesToBase64(iv);
    FromUndoesToBase64(WrappedKey(p, keys, iv));
  }

  lemma BodyIsUnsealed(p: Platform, keys: Keys, body: Body)
    requires LawfulPlatform(p) && HeldEntries(body.chunks)
    ensures OpenBody(p, OpenKeys(keys.fileKey, keys.fileSalt), ToBase64(SealedBody(p, keys, body)))
         == Ok(BodyJson(body))
  {
    var sealed := SealedBody(p, keys, body);
    FromUndoesToBase64(sealed);
    OpenInvertsSeal(p.ciphers, AesGcm, ManifestKey(p, keys.fileKey, keys.fileSalt), Utf8(MANIFEST_AAD), sealed,
                    Utf8(p.stringify(BodyJson(body))));
    BodyJsonIsHeld(body);
  }

  lemma HeaderIsUnsealed(p: Platform, packed: Packed, locations: seq<string>, iv: Bytes)
    requires LawfulPlatform(p) && |locations| == |packed.chunks| && HeldEntries(BodyOf(packed, locations).chunks)
    requires packed.keys.Some? ==>
      packed.suite.Some? && PassesGetSuite(packed.suite.value) && packed.keys.value.passphrase != ""
      && |packed.keys.value.kdfSalt| == 16
    ensures var keys := packed.keys;
      Unseal(p, HeaderOf(p, packed, locations, iv), if keys.Some? then Some(keys.value.passphrase) else None)
      == Ok((OpenedOf(packed, locations).keys, BodyJson(BodyOf(packed, locations))))
  {
    if packed.keys.Some? {
      var keys, body := packed.keys.value, BodyOf(packed, locations);
      FileKeyIsUnwrapped(p, packed, iv);
      FromUndoesToBase64(keys.fileSalt);
      BodyIsUnsealed(p, keys, body);
      UnsealFromParts(p, HeaderOf(p, packed, locations, iv), keys.passphrase, OpenKeys(keys.fileKey, keys.fileSalt),
                      BodyJson(body));
    }
  }

  lemma UnsealFromParts(p: Platform, h: Header, passphrase: string, keys: OpenKeys, body: Json)
    requires FullLength(p.hkdf) && h.version == MANIFEST_VERSION && h.encrypted && h.secrets.Some? && h.body.Str?
    requires passphrase != "" && PassesGetSuite(h.secrets.value.suite)
    requires UnwrapFileKey(p, h.secrets.value, passphrase) == Ok(keys.fileKey)
    requires FromBase64(h.secrets.value.fileSalt) == Some(keys.fileSalt)
    requires OpenBody(p, keys, h.body.text) == Ok(body)
    ensures Unseal(p, h, Some(passphrase)) == Ok((Some(keys), body))
  {
  }

  /**
   * For every file, suite and passphrase the writer accepts, the manifest it seals passes both validators under the
   * writer's own limits and opens to the very keys and chunk table that were sealed.
   */
  lemma SealedManifestOpens(p: Platform, file: Bytes, o: Options, random: Random, locations: seq<string>)
    requires LawfulPlatform(p) && Accepts(|file|, o) && Holdable(file, o) && RightSizes(random)
    requires Presentable(p, file, o, PackedOf(p, file, o, random), locations)
    ensures var packed := PackedOf(p, file, o, random);
      var sealed := SealManifest(p, packed, locations, random.iv);
      sealed.Ok?
      && ValidateManifestHeader(sealed.value, o.limits) == Ok(HeaderOf(p, packed, locations, random.iv))
      && OpensTo(p, sealed.value, o.passphrase, o.limits, OpenedOf(packed, locations))
  {
    var packed := PackedOf(p, file, o, random);
    PackedFits(p, file, o, random, locations);
    HeaderIsReadBack(p, packed, locations, random.iv, o.limits);
    PackedEntriesAreHeld(p, file, o, random, locations);
    HeaderIsUnsealed(p, packed, locations, random.iv);
    PackedBodyIsDescribed(p, file, o, random, locations, HeaderOf(p, packed, locations, random.iv));
  }

  /** What packing produced has the shape the header validator asks for. */
  lemma PackedFits(p: Platform, file: Bytes, o: Options, random: Random, locations: seq<string>)
    requires LawfulPlatform(p) && Accepts(|file|, o) && RightSizes(random)
    requires Presentable(p, file, o, PackedOf(p, file, o, random), locations)
    ensures var packed := PackedOf(p, file, o, random);
      "" !in locations && IsHex32(packed.fileHash) && IsHex32(packed.merkleRoot)
      && ShapeWithin(packed.totalChunks, packed.fileSize, packed.chunkSize, o.limits)
      && (packed.keys.Some? ==> SecretsFit(p, packed, locations, random.iv, o.limits))
  {
    assert "" !in locations;
    DecodedUndoesTo0x(p.sha(file));
    DecodedUndoesTo0x(ChunksRoot(p.sha, Chunks(file, o.chunkSize)));
    ChunkShape(file, o.chunkSize);
    if Encrypts(o) {
      PackedSecretsFit(p, file, o, random, locations);
    }
  }

  lemma PackedSecretsFit(p: Platform, file: Bytes, o: Options, random: Random, locations: seq<string>)
    requires FullLength(p.hkdf) && Accepts(|file|, o) && RightSizes(random) && Encrypts(o)
    requires Presentable(p, file, o, PackedOf(p, file, o, random), locations)
    ensures SecretsFit(p, PackedOf(p, file, o, random), locations, random.iv, o.limits)
  {
  }

  // ----- What the reader needs -----

  lemma KdfNeedsLimits(kdf: Kdf, salt: string, name: string, limits: Limits)
    requires Get(KdfJson(kdf, salt), "name") == Str(name)
    requires ValidateKdfParameters(KdfJson(kdf, salt), name, limits).Ok?
    ensures KdfWithin(kdf, limits)
  {
    assert ToLower("argon2id") == "argon2id";
    assert ToLower("pbkdf2-sha256") == "pbkdf2-sha256";
  }

  lemma SecretsNeedLimits(p: Platform, keys: Keys, suite: string, iv: Bytes, body: Body, m: Json, limits: Limits)
    requires FullLength(p.hkdf) && CarriesSecrets(p, keys, suite, iv, body, m) && ValidateSecrets(m, limits).Ok?
    ensures KdfWithin(keys.kdf, limits) && |ToBase64(SealedBody(p, keys, body))| <= limits.maxManifestBytes
  {
    SecretsNeedParts(m, limits);
    KdfNeedsLimits(keys.kdf, ToBase64(keys.kdfSalt), Get(Get(m, "kdf"), "name").text, limits);
    Base64Needs(ToBase64(SealedBody(p, keys, body)), limits.maxManifestBytes);
  }

  lemma SecretsNeedParts(m: Json, limits: Limits)
    requires ValidateSecrets(m, limits).Ok?
    ensures Get(Get(m, "kdf"), "name").Str?
    ensures ValidateKdfParameters(Get(m, "kdf"), Get(Get(m, "kdf"), "name").text, limits).Ok?
    ensures RequireBase64(Get(m, "body"), limits.maxManifestBytes).Ok?
  {
  }

  lemma Base64Needs(s: string, max: nat)
    requires RequireBase64(Str(s), max).Ok?
    ensures |s| <= max
  {
    Utf16LengthBounds(s);
  }

  lemma EntryNeeds(e: Entry, totalChunks: nat, chunkSize: nat, limits: Limits)
    requires totalChunks > 0 && ValidateEntry(EntryJson(e), totalChunks, chunkSize, limits).Ok?
    ensures IsLocation(e.location) && e.storedSize <= chunkSize + limits.maxAeadOverhead
  {
  }

  lemma BodyNeeds(b: Body, described: Body, h: Header, limits: Limits)
    requires h.totalChunks > 0 && Describes(BodyJson(b), described, h, limits)
    ensures Named(b.fileName, b.mimeType)
    ensures forall i :: 0 <= i < |b.chunks| ==>
      IsLocation(b.chunks[i].location) && b.chunks[i].storedSize <= h.chunkSize + limits.maxAeadOverhead
  {
    var j := BodyJson(b);
    assert Get(j, "fileName") == Str(b.fileName) && Get(j, "mimeType") == Str(b.mimeType);
    forall i | 0 <= i < |b.chunks|
      ensures IsLocation(b.chunks[i].location) && b.chunks[i].storedSize <= h.chunkSize + limits.maxAeadOverhead
    {
      assert Get(j, "chunks").items[i] == EntryJson(b.chunks[i]);
      EntryNeeds(b.chunks[i], h.totalChunks, h.chunkSize, limits);
    }
  }

  /** The first chunk is the largest, and its payload that much larger. */
  lemma FirstPayload(p: Platform, file: Bytes, o: Options, random: Random)
    requires LawfulPlatform(p) && Accepts(|file|, o)
    ensures var chunks := PackedOf(p, file, o, random).chunks;
      |chunks| > 0 && chunks[0].storedSize == Min(|file|, o.chunkSize) + Overhead(o)
  {
    var plain := Chunks(file, o.chunkSize);
    ChunksExist(file, o.chunkSize);
    PayloadSize(p, o, random, To0x(p.sha(file)), 0, |plain|, plain[0]);
    assert PackedOf(p, file, o, random).chunks[0] == PackChunk(p, o, random, To0x(p.sha(file)), 0, |plain|, plain[0]);
  }

  lemma EncryptedNeeds(p: Platform, packed: Packed, locations: seq<string>, iv: Bytes, limits: Limits)
    requires LawfulPlatform(p) && |locations| == |packed.chunks| == packed.totalChunks && "" !in locations
    requires packed.keys.Some? && packed.suite.Some?
    requires ValidateManifestHeader(SealManifest(p, packed, locations, iv).value, limits).Ok?
    ensures KdfWithin(packed.keys.value.kdf, limits)
    ensures |ToBase64(SealedBody(p, packed.keys.value, BodyOf(packed, locations)))| <= limits.maxManifestBytes
  {
    var body := BodyOf(packed, locations);
    var m := SealManifest(p, packed, locations, iv).value;
    var rest := SecretFields(p, packed.keys.value, iv, body);
    SealingCarriesSecrets(p, packed, p.clock, iv, body, m, rest);
    SecretFieldsRead(p, packed.keys.value, iv, body, rest);
    ManifestFields(packed, p.clock, rest);
    EncryptedHasSecrets(m, limits);
    SecretsNeedLimits(p, packed.keys.value, packed.suite.value, iv, body, m, limits);
  }

  /** Opening a sealed manifest at all takes everything that `Presentable` asks for. */
  lemma OpeningNeedsPresentable(p: Platform, file: Bytes, o: Options, random: Random, locations: seq<string>,
                                packed: Packed, m: Json, opening: Opened)
    requires LawfulPlatform(p) && Accepts(|file|, o) && Holdable(file, o) && RightSizes(random)
    requires packed == PackedOf(p, file, o, random)
    requires SealManifest(p, packed, locations, random.iv) == Ok(m) && OpensTo(p, m, o.passphrase, o.limits, opening)
    ensures Presentable(p, file, o, packed, locations)
  {
    if packed.keys.Some? {
      EncryptedNeeds(p, packed, locations, random.iv, o.limits);
    }
    HeaderShapeFits(p, file, o, random, packed);
    HeaderIsReadBack(p, packed, locations, random.iv, o.limits);
    PackedEntriesAreHeld(p, file, o, random, locations);
    SealedOpensToNamed(p, packed, locations, random.iv, o.passphrase, o.limits, m, opening);
    FirstPayload(p, file, o, random);
  }

  lemma SealedOpensToNamed(p: Platform, packed: Packed, locations: seq<string>, iv: Bytes,
                               passphrase: Option<string>, limits: Limits, m: Json, opening: Opened)
    requires LawfulPlatform(p) && |locations| == |packed.chunks| && HeldEntries(BodyOf(packed, locations).chunks)
    requires packed.keys.Some? ==>
      packed.suite.Some? && PassesGetSuite(packed.suite.value) && packed.keys.value.passphrase != ""
      && |packed.keys.value.kdfSalt| == 16 && passphrase == Some(packed.keys.value.passphrase)
    requires packed.keys.None? ==> passphrase.None?
    requires ValidateManifestHeader(m, limits) == Ok(HeaderOf(p, packed, locations, iv))
    requires OpensTo(p, m, passphrase, limits, opening) && |packed.chunks| > 0
    ensures Named(packed.fileName, packed.mimeType) && forall i :: 0 <= i < |locations| ==> IsLocation(locations[i])
    ensures packed.chunks[0].storedSize <= packed.chunkSize + limits.maxAeadOverhead
  {
    HeaderIsUnsealed(p, packed, locations, iv);
    BodyNeeds(BodyOf(packed, locations), opening.body, HeaderOf(p, packed, locations, iv), limits);
    EntriesNeed(packed, locations, packed.chunkSize + limits.maxAeadOverhead);
  }

  lemma EntriesNeed(packed: Packed, locations: seq<string>, max: nat)
    requires |locations| == |packed.chunks| > 0
    requires var entries := BodyOf(packed, locations).chunks;
      forall i :: 0 <= i < |entries| ==> IsLocation(entries[i].location) && entries[i].storedSize <= max
    ensures forall i :: 0 <= i < |locations| ==> IsLocation(locations[i])
    ensures packed.chunks[0].storedSize <= max
  {
    var entries := BodyOf(packed, locations).chunks;
    assert entries[0].storedSize == packed.chunks[0].storedSize;
    forall i | 0 <= i < |locations| ensures IsLocation(locations[i]) {
      assert entries[i].location == locations[i];
    }
  }

  lemma HeaderShapeFits(p: Platform, file: Bytes, o: Options, random: Random, packed: Packed)
    requires LawfulPlatform(p) && Accepts(|file|, o) && RightSizes(random) && packed == PackedOf(p, file, o, random)
    ensures IsHex32(packed.fileHash) && IsHex32(packed.merkleRoot)
    ensures ShapeWithin(packed.totalChunks, packed.fileSize, packed.chunkSize, o.limits)
    ensures packed.keys.Some? ==> packed.suite.Some? && 0 < |packed.suite.value| <= 32
  {
    DecodedUndoesTo0x(p.sha(file));
    DecodedUndoesTo0x(ChunksRoot(p.sha, Chunks(file, o.chunkSize)));
    ChunkShape(file, o.chunkSize);
  }

  /**
   * Exactly which packed files the reader will ever open again, among all that packing accepts: those with a name and
   * a type in range, locations in the pattern, KDF parameters within the limits, room for the cipher's overhead and a
   * sealed body that is not too long.  Nothing else can go wrong, and packing and sealing check none of these.
   */
  lemma SealedManifestOpensExactly(p: Platform, file: Bytes, o: Options, random: Random, locations: seq<string>)
    requires LawfulPlatform(p) && Accepts(|file|, o) && Holdable(file, o) && RightSizes(random)
    ensures var packed := PackedOf(p, file, o, random);
      var sealed := SealManifest(p, packed, locations, random.iv);
      (sealed.Ok? && exists opening :: OpensTo(p, sealed.value, o.passphrase, o.limits, opening))
      <==> Presentable(p, file, o, packed, locations)
  {
    var packed := PackedOf(p, file, o, random);
    var sealed := SealManifest(p, packed, locations, random.iv);
    if Presentable(p, file, o, packed, locations) {
      SealedManifestOpens(p, file, o, random, locations);
    } else if sealed.Ok? {
      forall opening | OpensTo(p, sealed.value, o.passphrase, o.limits, opening) ensures false {
        OpeningNeedsPresentable(p, file, o, random, locations, packed, sealed.value, opening);
      }
    }
  }

  /** So a file packed without a name packs and seals like any other, and no one ever opens it again. */
  lemma UnnamedFileIsLost(p: Platform, file: Bytes, o: Options, random: Random, locations: seq<string>)
    requires LawfulPlatform(p) && Accepts(|file|, o) && Holdable(file, o) && RightSizes(random) && o.fileName == ""
    requires |locations| == |Chunks(file, o.chunkSize)| && "" !in locations
    ensures var sealed := SealManifest(p, PackedOf(p, file, o, random), locations, random.iv);
      sealed.Ok? && forall opening :: !OpensTo(p, sealed.value, o.passphrase, o.limits, opening)
  {
    SealedManifestOpensExactly(p, file, o, random, locations);
  }

  // ----- What opens was sealed -----

  /** The wrapped key and the body of an encrypted manifest are the writer's seals of what it opened to. */
  ghost predicate SealedUnder(p: Platform, h: Header, passphrase: string, keys: OpenKeys, kdfSalt: Bytes, iv: Bytes,
                              plain: Bytes)
    requires FullLength(p.hkdf) && h.secrets.Some? && h.body.Str?
  {
    var s := h.secrets.value;
    passphrase != "" && PassesGetSuite(s.suite) && FromBase64(s.fileSalt) == Some(keys.fileSalt)
    && FromBase64(s.kdfSalt) == Some(kdfSalt) && |kdfSalt| >= 8 && FromBase64(s.iv) == Some(iv)
    && FromBase64(s.wrapped)
    == Some(p.ciphers.aes.seal(p.stretch(passphrase, kdfSalt, s.kdf), iv, Utf8(ENVELOPE_VERSION), keys.fileKey))
    && FromBase64(h.body.text)
    == Some(Seal(p.ciphers, AesGcm, ManifestKey(p, keys.fileKey, keys.fileSalt), Utf8(MANIFEST_AAD), plain))
  }

  lemma UnsealGuards(p: Platform, h: Header, passphrase: Option<string>)
    requires FullLength(p.hkdf) && h.encrypted && h.secrets.Some? && h.body.Str? && Unseal(p, h, passphrase).Ok?
    ensures h.version == MANIFEST_VERSION && passphrase.Some? && passphrase.value != ""
    ensures PassesGetSuite(h.secrets.value.suite) && UnwrapFileKey(p, h.secrets.value, passphrase.value).Ok?
    ensures FromBase64(h.secrets.value.fileSalt).Some?
  {
  }

  lemma UnsealParts(p: Platform, h: Header, passphrase: Option<string>, keys: Option<OpenKeys>, body: Json)
    requires FullLength(p.hkdf) && h.encrypted && h.secrets.Some? && h.body.Str?
    requires Unseal(p, h, passphrase) == Ok((keys, body))
    ensures passphrase.Some? && keys.Some? && FromBase64(h.secrets.value.fileSalt) == Some(keys.value.fileSalt)
    ensures UnwrapFileKey(p, h.secrets.value, passphrase.value) == Ok(keys.value.fileKey)
    ensures OpenBody(p, keys.value, h.body.text) == Ok(body)
  {
    UnsealGuards(p, h, passphrase);
    var fileKey := UnwrapFileKey(p, h.secrets.value, passphrase.value).value;
    var fileSalt := FromBase64(h.secrets.value.fileSalt).value;
    UnsealIsOpening(p, h, passphrase.value, fileKey, fileSalt);
    UnsealedBodyParts(p, OpenKeys(fileKey, fileSalt), h.body.text, keys, body);
  }

  lemma UnsealIsOpening(p: Platform, h: Header, passphrase: string, fileKey: Bytes, fileSalt: Bytes)
    requires FullLength(p.hkdf) && h.encrypted && h.secrets.Some? && h.body.Str?
    requires h.version == MANIFEST_VERSION && passphrase != "" && PassesGetSuite(h.secrets.value.suite)
    requires UnwrapFileKey(p, h.secrets.value, passphrase) == Ok(fileKey)
    requires FromBase64(h.secrets.value.fileSalt) == Some(fileSalt)
    ensures Unseal(p, h, Some(passphrase)) == UnsealBody(p, OpenKeys(fileKey, fileSalt), h.body.text)
  {
  }

  lemma UnsealedBodyParts(p: Platform, opening: OpenKeys, sealed: string, keys: Option<OpenKeys>, body: Json)
    requires FullLength(p.hkdf) && UnsealBody(p, opening, sealed) == Ok((keys, body))
    ensures keys == Some(opening) && OpenBody(p, opening, sealed) == Ok(body)
  {
  }

  lemma UnwrappedWasSealed(p: Platform, s: Secrets, passphrase: string, fileKey: Bytes)
    returns (kdfSalt: Bytes, iv: Bytes)
    requires LawfulPlatform(p) && UnwrapFileKey(p, s, passphrase) == Ok(fileKey)
    ensures FromBase64(s.kdfSalt) == Some(kdfSalt) && |kdfSalt| >= 8 && FromBase64(s.iv) == Some(iv)
    ensures FromBase64(s.wrapped)
         == Some(p.ciphers.aes.seal(p.stretch(passphrase, kdfSalt, s.kdf), iv, Utf8(ENVELOPE_VERSION), fileKey))
  {
    kdfSalt, iv := FromBase64(s.kdfSalt).value, FromBase64(s.iv).value;
  }

  lemma UnsealedWasSealed(p: Platform, h: Header, passphrase: Option<string>, keys: Option<OpenKeys>, body: Json)
    returns (kdfSalt: Bytes, iv: Bytes, plain: Bytes)
    requires LawfulPlatform(p) && h.encrypted && h.secrets.Some? && h.body.Str?
    requires Unseal(p, h, passphrase) == Ok((keys, body))
    ensures h.version == MANIFEST_VERSION && passphrase.Some? && keys.Some?
    ensures SealedUnder(p, h, passphrase.value, keys.value, kdfSalt, iv, plain) && p.ParseBytes(plain) == Some(body)
  {
    UnsealGuards(p, h, passphrase);
    UnsealParts(p, h, passphrase, keys, body);
    kdfSalt, iv := UnwrappedWasSealed(p, h.secrets.value, passphrase.value, keys.value.fileKey);
    plain := OpenedBodyWasSealed(p, keys.value, h.body.text, body);
  }

  lemma OpenedBodyWasSealed(p: Platform, keys: OpenKeys, sealed: string, body: Json) returns (plain: Bytes)
    requires LawfulPlatform(p) && OpenBody(p, keys, sealed) == Ok(body)
    ensures FromBase64(sealed)
         == Some(Seal(p.ciphers, AesGcm, ManifestKey(p, keys.fileKey, keys.fileSalt), Utf8(MANIFEST_AAD), plain))
    ensures p.ParseBytes(plain) == Some(body)
  {
    var material, aad := ManifestKey(p, keys.fileKey, keys.fileSalt), Utf8(MANIFEST_AAD);
    plain := Open(p.ciphers, AesGcm, material, aad, FromBase64(sealed).value).value;
    OpenInvertsSeal(p.ciphers, AesGcm, material, aad, FromBase64(sealed).value, plain);
  }

  /**
   * The converse of `SealedManifestOpens`, for any manifest: whatever opens is of the known version and carries, under
   * the passphrase given, exactly the seals a writer holding those keys and that body would have put there.
   */
  lemma OpenedManifestWasSealed(p: Platform, m: Json, passphrase: Option<string>, limits: Limits, o: Opened)
    returns (kdfSalt: Bytes, iv: Bytes, plain: Bytes)
    requires LawfulPlatform(p) && OpensTo(p, m, passphrase, limits, o)
    ensures var h := ValidateManifestHeader(m, limits).value;
      h.version == MANIFEST_VERSION
      && (if h.encrypted then
            passphrase.Some? && o.keys.Some?
            && SealedUnder(p, h, passphrase.value, o.keys.value, kdfSalt, iv, plain)
            && p.ParseBytes(plain).Some? && Describes(p.ParseBytes(plain).value, o.body, h, limits)
          else o.keys.None? && Describes(h.body, o.body, h, limits))
  {
    var h := ValidateManifestHeader(m, limits).value;
    if h.encrypted {
      var unsealed := Unseal(p, h, passphrase).value;
      kdfSalt, iv, plain := UnsealedWasSealed(p, h, passphrase, unsealed.0, unsealed.1);
    } else {
      kdfSalt, iv, plain := [], [], [];
    }
  }

  lemma SealedUnderUnseals(p: Platform, h: Header, passphrase: string, keys: OpenKeys, kdfSalt: Bytes, iv: Bytes,
                           plain: Bytes, body: Json)
    requires LawfulPlatform(p) && h.encrypted && h.secrets.Some? && h.body.Str? && h.version == MANIFEST_VERSION
    requires SealedUnder(p, h, passphrase, keys, kdfSalt, iv, plain) && p.ParseBytes(plain) == Some(body)
    ensures Unseal(p, h, Some(passphrase)) == Ok((Some(keys), body))
  {
    var material, aad := ManifestKey(p, keys.fileKey, keys.fileSalt), Utf8(MANIFEST_AAD);
    assert UnwrapFileKey(p, h.secrets.value, passphrase) == Ok(keys.fileKey);
    OpenInvertsSeal(p.ciphers, AesGcm, material, aad, FromBase64(h.body.text).value, plain);
    assert OpenBody(p, keys, h.body.text) == Ok(body);
    UnsealIsOpening(p, h, passphrase, keys.fileKey, keys.fileSalt);
  }

  /** These are the salt, the nonce and the body text under which the manifest carries those keys and that body. */
  ghost predicate IsSealedBody(p: Platform, h: Header, passphrase: string, limits: Limits, o: Opened, kdfSalt: Bytes,
                               iv: Bytes, plain: Bytes)
    requires FullLength(p.hkdf) && h.totalChunks > 0 && h.secrets.Some? && h.body.Str? && o.keys.Some?
  {
    SealedUnder(p, h, passphrase, o.keys.value, kdfSalt, iv, plain)
    && p.ParseBytes(plain).Some? && Describes(p.ParseBytes(plain).value, o.body, h, limits)
  }

  /** Exactly what a manifest of either kind opens to, in terms of what a writer would have put into it. */
  ghost predicate Carries(p: Platform, h: Header, passphrase: Option<string>, limits: Limits, o: Opened)
    requires FullLength(p.hkdf) && h.totalChunks > 0 && (h.encrypted ==> h.secrets.Some? && h.body.Str?)
  {
    h.version == "oreochain-manifest-v1"
    && (if h.encrypted then
          passphrase.Some? && o.keys.Some?
          && (exists kdfSalt, iv, plain :: IsSealedBody(p, h, passphrase.value, limits, o, kdfSalt, iv, plain))
        else o.keys.None? && Describes(h.body, o.body, h, limits))
  }

  /**
   * A manifest opens exactly to what it carries: a plain one under any passphrase and none, an encrypted one to the
   * keys and the body whose seals under the given passphrase stand in it.
   */
  lemma OpensExactly(p: Platform, m: Json, passphrase: Option<string>, limits: Limits, o: Opened, h: Header)
    requires LawfulPlatform(p) && ValidateManifestHeader(m, limits) == Ok(h)
    ensures OpensTo(p, m, passphrase, limits, o) <==> Carries(p, h, passphrase, limits, o)
  {
    if OpensTo(p, m, passphrase, limits, o) {
      OpenedIsCarried(p, m, passphrase, limits, o, h);
    } else if Carries(p, h, passphrase, limits, o) {
      CarriedOpens(p, m, passphrase, limits, o, h);
    }
  }

  lemma OpenedIsCarried(p: Platform, m: Json, passphrase: Option<string>, limits: Limits, o: Opened, h: Header)
    requires LawfulPlatform(p) && ValidateManifestHeader(m, limits) == Ok(h)
    requires OpensTo(p, m, passphrase, limits, o)
    ensures Carries(p, h, passphrase, limits, o)
  {
    var kdfSalt, iv, plain := OpenedManifestWasSealed(p, m, passphrase, limits, o);
    if h.encrypted {
      assert IsSealedBody(p, h, passphrase.value, limits, o, kdfSalt, iv, plain);
    }
  }

  lemma CarriedOpens(p: Platform, m: Json, passphrase: Option<string>, limits: Limits, o: Opened, h: Header)
    requires LawfulPlatform(p) && ValidateManifestHeader(m, limits) == Ok(h)
    requires Carries(p, h, passphrase, limits, o)
    ensures OpensTo(p, m, passphrase, limits, o)
  {
    if h.encrypted {
      var kdfSalt, iv, plain :| IsSealedBody(p, h, passphrase.value, limits, o, kdfSalt, iv, plain);
      SealedBodyOpens(p, m, passphrase.value, limits, o, h, kdfSalt, iv, plain);
    }
  }

  lemma SealedBodyOpens(p: Platform, m: Json, passphrase: string, limits: Limits, o: Opened, h: Header, kdfSalt: Bytes,
                        iv: Bytes, plain: Bytes)
    requires LawfulPlatform(p) && ValidateManifestHeader(m, limits) == Ok(h) && h.encrypted && o.keys.Some?
    requires h.version == MANIFEST_VERSION && IsSealedBody(p, h, passphrase, limits, o, kdfSalt, iv, plain)
    ensures OpensTo(p, m, Some(passphrase), limits, o)
  {
    SealedUnderUnseals(p, h, passphrase, o.keys.value, kdfSalt, iv, plain, p.ParseBytes(plain).value);
  }

  // ----- The chunk table commits to the file -----

  /**
   * The leaf hashes in the table of a packed file are those its Merkle root commits to: from the table alone a path can
   * be read that leads each chunk to the root.
   */
  lemma TableProvesChunks(p: Platform, file: Bytes, o: Options, random: Random, locations: seq<string>,
                          leaves: seq<Digest>)
    requires FullLength(p.hkdf) && Accepts(|file|, o)
    requires |locations| == |PackedOf(p, file, o, random).chunks| == |leaves|
    requires var chunks := BodyOf(PackedOf(p, file, o, random), locations).chunks;
      forall i :: 0 <= i < |leaves| ==> Decoded(Some(chunks[i].plainHash)) == Ok(leaves[i])
    ensures leaves != [] && To0x(Root(p.sha, leaves)) == PackedOf(p, file, o, random).merkleRoot
    ensures forall i :: 0 <= i < |leaves| ==>
      leaves[i] == LeafHash(p.sha, Chunks(file, o.chunkSize)[i])
      && Fold(p.sha, leaves[i], Path(p.sha, leaves, i)) == Root(p.sha, leaves)
  {
    var packed, plain := PackedOf(p, file, o, random), Chunks(file, o.chunkSize);
    ChunksExist(file, o.chunkSize);
    forall i | 0 <= i < |leaves| ensures leaves[i] == LeafHash(p.sha, plain[i]) {
      assert packed.chunks[i].plainHash == LeafHash(p.sha, plain[i]);
      DecodedUndoesTo0x(LeafHash(p.sha, plain[i]));
    }
    assert leaves == LeafHashes(p.sha, plain);
    forall i | 0 <= i < |leaves| ensures Fold(p.sha, leaves[i], Path(p.sha, leaves, i)) == Root(p.sha, leaves) {
      HonestPathReachesRoot(p.sha, plain, i);
    }
  }
}
