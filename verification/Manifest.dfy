/** Packing a file, sealing its manifest and opening it again (js/core/manifest.js). */
module Manifest {
  import opened Base64
  import opened Bytes
  import opened Chunker
  import opened Crypto
  import opened Doubles
  import opened Hex
  import opened Json
  import opened MerkleTree
  import opened Suites
  import opened Text
  import opened Validate
  import opened Wrappers

  const MANIFEST_VERSION := "oreochain-manifest-v1"
  const MANIFEST_AAD := ENVELOPE_VERSION + "/manifest-body"

  /** What the browser or Node supplies: hashing, ciphers, the passphrase's KDF, JSON, the UTF-8 decoder, the time. */
  datatype Platform = Platform(sha: Sha, hkdf: Hkdf, ciphers: Ciphers, stretch: (string, Bytes, Kdf) -> Bytes,
                               stringify: Json -> string, parse: string -> Option<Json>, decode: Bytes -> string,
                               clock: string)
  {
    function ParseBytes(bytes: Bytes): Option<Json> {
      parse(decode(bytes))
    }
  }

  /** Every number in it is one that JavaScript has. */
  ghost predicate HeldNumbers(j: Json) {
    match j
    case Num(value) => value in Held()
    case Arr(items) => forall i :: 0 <= i < |items| ==> HeldNumbers(items[i])
    case Obj(fields) => forall key | key in fields :: HeldNumbers(fields[key])
    case _ => true
  }

  /** JSON text carries every value JavaScript has, and UTF-8 carries the text. */
  ghost predicate LawfulPlatform(p: Platform) {
    FullLength(p.hkdf) && BothLawful(p.ciphers)
    && forall j :: HeldNumbers(j) ==>
      p.decode(Utf8(p.stringify(j))) == p.stringify(j) && p.parse(p.stringify(j)) == Some(j)
  }

  // ----- Packing -----

  datatype Options = Options(fileName: string, mimeType: string, passphrase: Option<string>, suite: string,
                             chunkSize: int, kdf: Kdf, limits: Limits)

  /** The random bytes of one packing. */
  datatype Random = Random(fileKey: Bytes, fileSalt: Bytes, kdfSalt: Bytes, iv: Bytes)

  predicate RightSizes(random: Random) {
    |random.fileKey| == 32 && |random.fileSalt| == 16 && |random.kdfSalt| == 16 && |random.iv| == 12
  }

  datatype Keys = Keys(fileKey: Bytes, fileSalt: Bytes, kdfSalt: Bytes, kdf: Kdf, passphrase: string)

  datatype PackedChunk = PackedChunk(index: nat, payload: Bytes, plainHash: Digest, payloadHash: Digest,
                                     plainSize: nat, storedSize: nat)

  datatype Packed = Packed(suite: Option<string>, fileName: string, mimeType: string, fileSize: nat, fileHash: string,
                           merkleRoot: string, chunkSize: nat, totalChunks: nat, chunks: seq<PackedChunk>,
                           keys: Option<Keys>)

  function AssertPackable(size: nat, chunkSize: int, limits: Limits): (r: Result<nat, string>)
    ensures r.Ok? <==> chunkSize >= 1 && ShapeWithin(ChunkCount(size, chunkSize), size, chunkSize, limits)
    ensures r.Ok? ==> r.value == chunkSize
  {
    if chunkSize < 1 then Err("chunkSize must be a positive integer")
    else if chunkSize > limits.maxChunkSize then Err("chunkSize is above the maximum")
    else if size > limits.maxFileSize then Err("file is above the maximum")
    else if ChunkCount(size, chunkSize) > limits.maxTotalChunks then Err("too many chunks")
    else
      assert ChunkCount(size, chunkSize) >= 1 by { CountIsPositive(size, chunkSize); }
      Ok(chunkSize)
  }

  lemma CountIsPositive(size: nat, chunkSize: nat)
    requires chunkSize > 0
    ensures ChunkCount(size, chunkSize) >= 1
  {
    if size > 0 {
      DivideAfterAdding(size - 1, chunkSize);
    }
  }

  predicate Encrypts(o: Options) {
    o.passphrase.Some?
  }

  /** Exactly what the writer demands before it does any work. */
  predicate Accepts(size: nat, o: Options) {
    (Encrypts(o) ==> o.passphrase.value != "" && HasArgon2Shape(o.kdf) && GetSuite(o.suite).Some?)
    && o.chunkSize >= 1 && ShapeWithin(ChunkCount(size, o.chunkSize), size, o.chunkSize, o.limits)
  }

  function PayloadOf(p: Platform, o: Options, random: Random, fileHash: string, index: nat, total: nat, plain: Bytes)
    : Bytes
    requires FullLength(p.hkdf) && (Encrypts(o) ==> GetSuite(o.suite).Some?)
  {
    if Encrypts(o) then
      EncryptChunk(p.hkdf, p.ciphers, plain, random.fileKey, random.fileSalt, index,
                   ChunkAad(fileHash, index, total), o.suite).value
    else plain
  }

  function PackChunk(p: Platform, o: Options, random: Random, fileHash: string, index: nat, total: nat, plain: Bytes)
    : PackedChunk
    requires FullLength(p.hkdf) && (Encrypts(o) ==> GetSuite(o.suite).Some?)
  {
    var payload := PayloadOf(p, o, random, fileHash, index, total, plain);
    PackedChunk(index, payload, LeafHash(p.sha, plain), p.sha(payload), |plain|, |payload|)
  }

  function PackedChunks(p: Platform, file: Bytes, o: Options, random: Random): (chunks: seq<PackedChunk>)
    requires FullLength(p.hkdf) && Accepts(|file|, o)
    ensures |chunks| == |Chunks(file, o.chunkSize)|
  {
    var plain := Chunks(file, o.chunkSize);
    seq(|plain|, i requires 0 <= i < |plain| =>
      PackChunk(p, o, random, To0x(p.sha(file)), i, |plain|, plain[i]))
  }

  lemma ChunksExist(file: Bytes, chunkSize: nat)
    requires chunkSize > 0
    ensures |Chunks(file, chunkSize)| > 0
  {
  }

  function PackedOf(p: Platform, file: Bytes, o: Options, random: Random): Packed
    requires FullLength(p.hkdf) && Accepts(|file|, o)
  {
    var plain := Chunks(file, o.chunkSize);
    ChunksExist(file, o.chunkSize);
    Packed(if Encrypts(o) then Some(o.suite) else None, o.fileName, o.mimeType, |file|, To0x(p.sha(file)),
           To0x(ChunksRoot(p.sha, plain)), o.chunkSize, |plain|, PackedChunks(p, file, o, random),
           if Encrypts(o)
           then Some(Keys(random.fileKey, random.fileSalt, random.kdfSalt, o.kdf, o.passphrase.value)) else None)
  }

  /** The packing loop: encrypt where asked, hash what will be stored, note the sizes. */
  method PackEach(p: Platform, file: Bytes, o: Options, random: Random, plainChunks: seq<Bytes>,
                  leaves: seq<Digest>, fileHash: string)
    returns (chunks: seq<PackedChunk>)
    requires FullLength(p.hkdf) && Accepts(|file|, o)
    requires plainChunks == Chunks(file, o.chunkSize) && leaves == LeafHashes(p.sha, plainChunks)
    requires fileHash == To0x(p.sha(file))
    ensures chunks == PackedChunks(p, file, o, random)
  {
    chunks := [];
    for index := 0 to |plainChunks|
      invariant |chunks| == index && chunks <= PackedChunks(p, file, o, random)
    {
      var plain := plainChunks[index];
      var payload := PayloadOf(p, o, random, fileHash, index, |plainChunks|, plain);
      var chunk := PackedChunk(index, payload, leaves[index], p.sha(payload), |plain|, |payload|);
      assert chunk == PackedChunks(p, file, o, random)[index];
      chunks := chunks + [chunk];
    }
  }

  method PackFile(p: Platform, file: Bytes, o: Options, random: Random) returns (r: Result<Packed, string>)
    requires FullLength(p.hkdf)
    ensures r.Ok? <==> Accepts(|file|, o)
    ensures r.Ok? ==> r.value == PackedOf(p, file, o, random)
  {
    if Encrypts(o) && o.passphrase.value == "" {
      return Err("passphrase is empty");
    }
    if Encrypts(o) && !HasArgon2Shape(o.kdf) {
      return Err("Argon2id needs memoryKiB >= 8 * parallelism");
    }
    if Encrypts(o) && !PassesGetSuite(o.suite) {
      return Err("unknown cipher suite");
    }
    var packable := AssertPackable(|file|, o.chunkSize, o.limits);
    if packable.Err? {
      return Err(packable.error);
    }
    if Encrypts(o) && GetSuite(o.suite).None? {
      return Err("what is inherited under this name is no cipher");
    }
    var split := SplitIntoChunks(file, o.chunkSize);
    var plainChunks := split.value;
    var fileHash := To0x(p.sha(file));
    ChunksExist(file, o.chunkSize);
    var leaves := HashChunks(p.sha, plainChunks);
    var root := MerkleRoot(p.sha, leaves);
    var chunks := PackEach(p, file, o, random, plainChunks, leaves, fileHash);
    return Ok(Packed(if Encrypts(o) then Some(o.suite) else None, o.fileName, o.mimeType, |file|, fileHash,
                     To0x(root.value), o.chunkSize, |plainChunks|, chunks,
                     if Encrypts(o)
                     then Some(Keys(random.fileKey, random.fileSalt, random.kdfSalt, o.kdf, o.passphrase.value))
                     else None));
  }

  // ----- Sealing -----

  function EntryJson(e: Entry): Json {
    Obj(map["index" := Num(e.index as real), "location" := Str(e.location), "plainHash" := Str(e.plainHash),
            "payloadHash" := Str(e.payloadHash), "plainSize" := Num(e.plainSize as real),
            "storedSize" := Num(e.storedSize as real)])
  }

  function BodyJson(b: Body): Json {
    Obj(map["fileName" := Str(b.fileName), "mimeType" := Str(b.mimeType),
            "chunks" := Arr(seq(|b.chunks|, i requires 0 <= i < |b.chunks| => EntryJson(b.chunks[i])))])
  }

  function BodyOf(packed: Packed, locations: seq<string>): Body
    requires |locations| == |packed.chunks|
  {
    Body(packed.fileName, packed.mimeType, seq(|locations|, i requires 0 <= i < |locations| =>
      var c := packed.chunks[i];
      Entry(c.index, locations[i], To0x(c.plainHash), To0x(c.payloadHash), c.plainSize, c.storedSize)))
  }

  function KdfJson(kdf: Kdf, salt: string): Json {
    match kdf
    case Argon2id(memoryKiB, iterations, parallelism) =>
      Obj(map["name" := Str("argon2id"), "memoryKiB" := Num(memoryKiB as real),
              "iterations" := Num(iterations as real), "parallelism" := Num(parallelism as real), "salt" := Str(salt)])
    case Pbkdf2(iterations) =>
      Obj(map["name" := Str("pbkdf2-sha256"), "iterations" := Num(iterations as real), "salt" := Str(salt)])
  }

  function PublicFields(packed: Packed, createdAt: string): map<string, Json> {
    map["version" := Str(MANIFEST_VERSION), "envelope" := Str(ENVELOPE_VERSION), "createdAt" := Str(createdAt),
        "encrypted" := Bool(packed.keys.Some?),
        "suite" := if packed.suite.Some? then Str(packed.suite.value) else Null,
        "fileHash" := Str(packed.fileHash), "merkleRoot" := Str(packed.merkleRoot),
        "chunkSize" := Num(packed.chunkSize as real), "totalChunks" := Num(packed.totalChunks as real),
        "fileSize" := Num(packed.fileSize as real)]
  }

  function ManifestKey(p: Platform, fileKey: Bytes, fileSalt: Bytes): Bytes {
    p.hkdf(fileKey, fileSalt, Utf8(MANIFEST_INFO), AES_MATERIAL)
  }

  function WrappedKey(p: Platform, keys: Keys, iv: Bytes): Bytes {
    p.ciphers.aes.seal(p.stretch(keys.passphrase, keys.kdfSalt, keys.kdf), iv, Utf8(ENVELOPE_VERSION), keys.fileKey)
  }

  function WrappedJson(iv: string, ciphertext: string): Json {
    Obj(map["iv" := Str(iv), "ciphertext" := Str(ciphertext)])
  }

  function SealedBody(p: Platform, keys: Keys, body: Body): Bytes
    requires FullLength(p.hkdf)
  {
    Seal(p.ciphers, AesGcm, ManifestKey(p, keys.fileKey, keys.fileSalt), Utf8(MANIFEST_AAD),
         Utf8(p.stringify(BodyJson(body))))
  }

  function SecretFields(p: Platform, keys: Keys, iv: Bytes, body: Body): map<string, Json>
    requires FullLength(p.hkdf)
  {
    SecretMap(KdfJson(keys.kdf, ToBase64(keys.kdfSalt)), ToBase64(keys.fileSalt),
              WrappedJson(ToBase64(iv), ToBase64(WrappedKey(p, keys, iv))), ToBase64(SealedBody(p, keys, body)))
  }

  function SecretMap(kdf: Json, fileSalt: string, wrappedKey: Json, body: string): map<string, Json> {
    map["kdf" := kdf, "fileSalt" := Str(fileSalt), "wrappedKey" := wrappedKey, "body" := Str(body)]
  }

  /** The manifest without its guard against a second, different sealing (see module Sealing). */
  function SealManifest(p: Platform, packed: Packed, locations: seq<string>, iv: Bytes): (r: Result<Json, string>)
    requires FullLength(p.hkdf) && |packed.chunks| == packed.totalChunks
    ensures r.Ok? <==> |locations| == packed.totalChunks && "" !in locations
  {
    if |locations| != packed.totalChunks then Err("expected one location per chunk")
    else if "" in locations then Err("every chunk location must be a non-empty string")
    else
      var body := BodyOf(packed, locations);
      Ok(Obj(PublicFields(packed, p.clock) + (
               if packed.keys.Some? then SecretFields(p, packed.keys.value, iv, body)
               else map["body" := BodyJson(body)])))
  }

  // ----- Opening -----

  datatype OpenKeys = OpenKeys(fileKey: Bytes, fileSalt: Bytes)

  datatype Opened = Opened(keys: Option<OpenKeys>, body: Body)

  function UnwrapFileKey(p: Platform, secrets: Secrets, passphrase: string): Result<Bytes, string> {
    match (FromBase64(secrets.kdfSalt), FromBase64(secrets.iv), FromBase64(secrets.wrapped))
    case (Some(kdfSalt), Some(iv), Some(wrapped)) =>
      if |kdfSalt| < 8 then Err("a salt of at least 8 bytes is required")
      else
        (match p.ciphers.aes.open(p.stretch(passphrase, kdfSalt, secrets.kdf), iv, Utf8(ENVELOPE_VERSION), wrapped)
         case None => Err("wrong passphrase")
         case Some(fileKey) => Ok(fileKey))
    case _ => Err("not valid base64")
  }

  function OpenBody(p: Platform, keys: OpenKeys, sealed: string): Result<Json, string>
    requires FullLength(p.hkdf)
  {
    match FromBase64(sealed)
    case None => Err("not valid base64")
    case Some(cipher) =>
      match Open(p.ciphers, AesGcm, ManifestKey(p, keys.fileKey, keys.fileSalt), Utf8(MANIFEST_AAD), cipher) {
        case None => Err("manifest failed authentication")
        case Some(plain) =>
          match p.ParseBytes(plain) {
            case None => Err("decrypted body is not valid JSON")
            case Some(j) => Ok(j)
          }
      }
  }

  function UnsealBody(p: Platform, keys: OpenKeys, sealed: string): Result<(Option<OpenKeys>, Json), string>
    requires FullLength(p.hkdf)
  {
    var body :- OpenBody(p, keys, sealed);
    Ok((Some(keys), body))
  }

  /** Everything up to the validation of the chunk table: the keys, and the body as JSON. */
  function Unseal(p: Platform, h: Header, passphrase: Option<string>): Result<(Option<OpenKeys>, Json), string>
    requires FullLength(p.hkdf) && (h.encrypted ==> h.secrets.Some? && h.body.Str?)
  {
    if h.version != MANIFEST_VERSION then Err("unsupported version")
    else if !h.encrypted then Ok((None, h.body))
    else if passphrase.None? || passphrase.value == "" then Err("a passphrase is required")
    else if !PassesGetSuite(h.secrets.value.suite) then Err("unknown cipher suite")
    else
      var fileKey :- UnwrapFileKey(p, h.secrets.value, passphrase.value);
      match FromBase64(h.secrets.value.fileSalt) {
        case None => Err("not valid base64")
        case Some(fileSalt) => UnsealBody(p, OpenKeys(fileKey, fileSalt), h.body.text)
      }
  }

  /** The one thing a manifest can open to. */
  ghost predicate OpensTo(p: Platform, m: Json, passphrase: Option<string>, limits: Limits, o: Opened)
    requires FullLength(p.hkdf)
  {
    var header := ValidateManifestHeader(m, limits);
    header.Ok?
    && Unseal(p, header.value, passphrase).Ok?
    && Unseal(p, header.value, passphrase).value.0 == o.keys
    && Describes(Unseal(p, header.value, passphrase).value.1, o.body, header.value, limits)
  }

  method OpenManifest(p: Platform, m: Json, passphrase: Option<string>, limits: Limits)
    returns (r: Result<Opened, string>)
    requires FullLength(p.hkdf)
    ensures r.Ok? ==> OpensTo(p, m, passphrase, limits, r.value)
    ensures r.Err? ==> forall o :: !OpensTo(p, m, passphrase, limits, o)
  {
    var header := ValidateManifestHeader(m, limits);
    if header.Err? {
      return Err(header.error);
    }
    var unsealed := Unseal(p, header.value, passphrase);
    if unsealed.Err? {
      return Err(unsealed.error);
    }
    var body := ValidateManifestBody(unsealed.value.1, header.value, limits);
    if body.Err? {
      return Err(body.error);
    }
    return Ok(Opened(unsealed.value.0, body.value));
  }
}
