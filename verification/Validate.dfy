/** Strict validation of untrusted manifests (js/core/validate.js), as parsers into typed records. */
module Validate {
  import opened Base64
  import opened Chunker
  import opened Hex
  import opened Json
  import opened Text
  import opened Wrappers

  // ----- Limits -----

  datatype Limits = Limits(
    maxTotalChunks: nat, maxFileSize: nat, maxChunkSize: nat, maxAeadOverhead: nat, maxManifestBytes: nat,
    minIterations: int, maxIterations: int, minArgon2MemoryKiB: int, maxArgon2MemoryKiB: int,
    minArgon2Iterations: int, maxArgon2Iterations: int, minArgon2Parallelism: int, maxArgon2Parallelism: int,
    maxInMemoryBytes: nat)

  const MANIFEST_LIMITS := Limits(
    4_000_000, 1_099_511_627_776, 67_108_864, 64, 134_217_728,
    600_000, 50_000_000, 19_456, 2_097_152, 1, 16, 1, 16, 536_870_912)

  // ----- Typed records -----

  datatype Kdf = Argon2id(memoryKiB: int, iterations: int, parallelism: int) | Pbkdf2(iterations: int)

  datatype Secrets = Secrets(kdf: Kdf, kdfSalt: string, fileSalt: string, iv: string, wrapped: string, suite: string)

  datatype Header = Header(version: string, fileHash: string, merkleRoot: string, encrypted: bool,
                           totalChunks: nat, fileSize: nat, chunkSize: nat, secrets: Option<Secrets>, body: Json)

  datatype Entry = Entry(index: nat, location: string, plainHash: string, payloadHash: string,
                         plainSize: nat, storedSize: nat)

  datatype Body = Body(fileName: string, mimeType: string, chunks: seq<Entry>)

  // ----- Fields -----

  function RequireString(v: Json, max: nat): Result<string, string> {
    if !v.Str? then Err("must be a string")
    else if v.text == "" then Err("must not be empty")
    else if Utf16Length(v.text) > max then Err("exceeds its maximum length")
    else Ok(v.text)
  }

  function RequireHash(v: Json): Result<string, string> {
    var text :- RequireString(v, 66);
    if IsHex32(text) then Ok(text) else Err("is malformed")
  }

  function RequireBase64(v: Json, max: nat): Result<string, string> {
    var text :- RequireString(v, max);
    if IsBase64(text) then Ok(text) else Err("is malformed")
  }

  /** A string, not empty, of at most so many code units. */
  predicate IsText(v: Json, s: string, max: nat) {
    v == Str(s) && s != "" && Utf16Length(s) <= max
  }

  lemma HashIsExact(v: Json, s: string)
    ensures RequireHash(v) == Ok(s) <==> v == Str(s) && IsHex32(s)
  {
    if IsHex32(s) {
      Utf16LengthOfBasic(s);
    }
  }

  predicate IsLocationChar(c: char) {
    'A' <= c <= 'Z' || 'a' <= c <= 'z' || '0' <= c <= '9' || c == '_' || c == '-'
  }

  predicate IsLocation(s: string) {
    0 < |s| <= 512 && forall i :: 0 <= i < |s| ==> IsLocationChar(s[i])
  }

  function RequireLocation(v: Json): Result<string, string> {
    var text :- RequireString(v, 512);
    if IsLocation(text) then Ok(text) else Err("is malformed")
  }

  function RequireInteger(v: Json, min: int, max: int): Result<int, string> {
    if !IsInteger(v) then Err("must be an integer")
    else if v.value.Floor < min then Err("is too small")
    else if v.value.Floor > max then Err("exceeds the maximum")
    else Ok(v.value.Floor)
  }

  function RequireNat(v: Json, min: nat, max: int): (r: Result<nat, string>)
    ensures r.Ok? ==> min <= r.value <= max
  {
    match RequireInteger(v, min, max)
    case Err(e) => Err(e)
    case Ok(n) => Ok(n)
  }

  // ----- KDF parameters -----

  datatype KdfName = NameArgon2id | NamePbkdf2

  function NormalizeKdfName(name: string): Option<KdfName> {
    var lower := ToLower(name);
    if lower == "argon2id" || lower == "argon2" then Some(NameArgon2id)
    else if lower == "pbkdf2-sha256" || lower == "pbkdf2" || lower == "pbkdf2-hmac-sha256" then Some(NamePbkdf2)
    else None
  }

  predicate HasArgon2Shape(kdf: Kdf) {
    kdf.Argon2id? ==> kdf.memoryKiB >= 8 * kdf.parallelism
  }

  predicate KdfWithin(kdf: Kdf, limits: Limits) {
    match kdf
    case Argon2id(memoryKiB, iterations, parallelism) =>
      limits.minArgon2MemoryKiB <= memoryKiB <= limits.maxArgon2MemoryKiB
      && limits.minArgon2Iterations <= iterations <= limits.maxArgon2Iterations
      && limits.minArgon2Parallelism <= parallelism <= limits.maxArgon2Parallelism
      && HasArgon2Shape(kdf)
    case Pbkdf2(iterations) => limits.minIterations <= iterations <= limits.maxIterations
  }

  function ValidateKdfParameters(kdf: Json, name: string, limits: Limits): (r: Result<Kdf, string>)
    ensures r.Ok? ==> KdfWithin(r.value, limits)
  {
    match NormalizeKdfName(name)
    case None => Err("unsupported kdf")
    case Some(NameArgon2id) =>
      var memoryKiB :- RequireInteger(Get(kdf, "memoryKiB"), limits.minArgon2MemoryKiB, limits.maxArgon2MemoryKiB);
      var iterations :- RequireInteger(Get(kdf, "iterations"), limits.minArgon2Iterations, limits.maxArgon2Iterations);
      var parallelism :-
        RequireInteger(Get(kdf, "parallelism"), limits.minArgon2Parallelism, limits.maxArgon2Parallelism);
      if HasArgon2Shape(Argon2id(memoryKiB, iterations, parallelism))
      then Ok(Argon2id(memoryKiB, iterations, parallelism))
      else Err("Argon2id needs memoryKiB >= 8 * parallelism")
    case Some(NamePbkdf2) =>
      var iterations :- RequireInteger(Get(kdf, "iterations"), limits.minIterations, limits.maxIterations);
      Ok(Pbkdf2(iterations))
  }

  /** What it takes for a JSON object under a given name to stand for typed parameters. */
  predicate KdfDescribes(kdf: Json, name: string, k: Kdf, limits: Limits) {
    match k
    case Argon2id(memoryKiB, iterations, parallelism) =>
      ToLower(name) in {"argon2id", "argon2"} && Get(kdf, "memoryKiB") == Num(memoryKiB as real)
      && Get(kdf, "iterations") == Num(iterations as real) && Get(kdf, "parallelism") == Num(parallelism as real)
      && limits.minArgon2MemoryKiB <= memoryKiB <= limits.maxArgon2MemoryKiB && memoryKiB >= 8 * parallelism
      && limits.minArgon2Iterations <= iterations <= limits.maxArgon2Iterations
      && limits.minArgon2Parallelism <= parallelism <= limits.maxArgon2Parallelism
    case Pbkdf2(iterations) =>
      ToLower(name) in {"pbkdf2-sha256", "pbkdf2", "pbkdf2-hmac-sha256"}
      && Get(kdf, "iterations") == Num(iterations as real)
      && limits.minIterations <= iterations <= limits.maxIterations
  }

  lemma IntegerIsExact(v: Json, min: int, max: int, n: int)
    ensures RequireInteger(v, min, max) == Ok(n) <==> v == Num(n as real) && min <= n <= max
  {
  }

  lemma KdfNamesDiffer(lower: string)
    ensures !(lower in {"argon2id", "argon2"} && lower in {"pbkdf2-sha256", "pbkdf2", "pbkdf2-hmac-sha256"})
  {
    assert lower in {"argon2id", "argon2"} ==> lower[0] == 'a';
    assert lower in {"pbkdf2-sha256", "pbkdf2", "pbkdf2-hmac-sha256"} ==> lower[0] == 'p';
  }

  /** The parameter check accepts exactly what typed parameters within the limits describe, and returns those. */
  lemma KdfIsExact(kdf: Json, name: string, k: Kdf, limits: Limits)
    ensures ValidateKdfParameters(kdf, name, limits) == Ok(k) <==> KdfDescribes(kdf, name, k, limits)
  {
    KdfNamesDiffer(ToLower(name));
    match k
    case Argon2id(memoryKiB, iterations, parallelism) =>
      IntegerIsExact(Get(kdf, "memoryKiB"), limits.minArgon2MemoryKiB, limits.maxArgon2MemoryKiB, memoryKiB);
      IntegerIsExact(Get(kdf, "iterations"), limits.minArgon2Iterations, limits.maxArgon2Iterations, iterations);
      IntegerIsExact(Get(kdf, "parallelism"), limits.minArgon2Parallelism, limits.maxArgon2Parallelism, parallelism);
    case Pbkdf2(iterations) =>
      IntegerIsExact(Get(kdf, "iterations"), limits.minIterations, limits.maxIterations, iterations);
  }

  // ----- The header -----

  /** The four numbers a header declares, each in range and agreeing with the others. */
  predicate ShapeWithin(totalChunks: nat, fileSize: nat, chunkSize: nat, limits: Limits) {
    1 <= totalChunks <= limits.maxTotalChunks && fileSize <= limits.maxFileSize
    && 1 <= chunkSize <= limits.maxChunkSize && totalChunks == ChunkCount(fileSize, chunkSize)
  }

  function ValidateSecrets(m: Json, limits: Limits): (r: Result<Secrets, string>)
    ensures r.Ok? ==> KdfWithin(r.value.kdf, limits) && Get(m, "body").Str?
  {
    var kdf := Get(m, "kdf");
    if !kdf.Obj? && !kdf.Arr? then Err("kdf parameters are missing")
    else
      var name :- RequireString(Get(kdf, "name"), 64);
      var kdfSalt :- RequireBase64(Get(kdf, "salt"), 128);
      var parameters :- ValidateKdfParameters(kdf, name, limits);
      var fileSalt :- RequireBase64(Get(m, "fileSalt"), 128);
      var wrappedKey := Get(m, "wrappedKey");
      if !wrappedKey.Obj? && !wrappedKey.Arr? then Err("wrappedKey is missing")
      else
        var iv :- RequireBase64(Get(wrappedKey, "iv"), 64);
        var wrapped :- RequireBase64(Get(wrappedKey, "ciphertext"), 256);
        var suite :- RequireString(Get(m, "suite"), 64);
        var _ :- RequireBase64(Get(m, "body"), limits.maxManifestBytes);
        Ok(Secrets(parameters, kdfSalt, fileSalt, iv, wrapped, suite))
  }

  datatype Shape = Shape(totalChunks: nat, fileSize: nat, chunkSize: nat)

  function ValidateShape(m: Json, limits: Limits): (r: Result<Shape, string>)
    ensures r.Ok? ==> ShapeWithin(r.value.totalChunks, r.value.fileSize, r.value.chunkSize, limits)
  {
    var totalChunks :- RequireNat(Get(m, "totalChunks"), 1, limits.maxTotalChunks);
    var fileSize :- RequireNat(Get(m, "fileSize"), 0, limits.maxFileSize);
    var chunkSize :- RequireNat(Get(m, "chunkSize"), 1, limits.maxChunkSize);
    if totalChunks != ChunkCount(fileSize, chunkSize) then Err("totalChunks is inconsistent with fileSize")
    else Ok(Shape(totalChunks, fileSize, chunkSize))
  }

  function ValidateManifestHeader(m: Json, limits: Limits): (r: Result<Header, string>)
    ensures r.Ok? ==> ShapeWithin(r.value.totalChunks, r.value.fileSize, r.value.chunkSize, limits)
    ensures r.Ok? ==> IsHex32(r.value.fileHash) && IsHex32(r.value.merkleRoot)
    ensures r.Ok? ==> (r.value.encrypted <==> r.value.secrets.Some?)
    ensures r.Ok? && r.value.encrypted ==> r.value.body.Str? && KdfWithin(r.value.secrets.value.kdf, limits)
  {
    if !m.Obj? then Err("manifest must be an object")
    else
      var version :- RequireString(Get(m, "version"), 64);
      var fileHash :- RequireHash(Get(m, "fileHash"));
      var merkleRoot :- RequireHash(Get(m, "merkleRoot"));
      if !Get(m, "encrypted").Bool? then Err("encrypted must be a boolean")
      else
        var shape :- ValidateShape(m, limits);
        if Get(m, "encrypted").bit then
          var secrets :- ValidateSecrets(m, limits);
          Ok(Header(version, fileHash, merkleRoot, true, shape.totalChunks, shape.fileSize, shape.chunkSize,
                    Some(secrets), Get(m, "body")))
        else if !Get(m, "body").Obj? && !Get(m, "body").Arr? then
          Err("an unencrypted manifest must carry a plain body object")
        else
          Ok(Header(version, fileHash, merkleRoot, false, shape.totalChunks, shape.fileSize, shape.chunkSize, None,
                    Get(m, "body")))
  }

  /** What it takes for a JSON object to stand for the part of a typed header that every manifest has. */
  predicate PublicDescribe(m: Json, h: Header, limits: Limits) {
    m.Obj? && IsText(Get(m, "version"), h.version, 64)
    && Get(m, "fileHash") == Str(h.fileHash) && IsHex32(h.fileHash)
    && Get(m, "merkleRoot") == Str(h.merkleRoot) && IsHex32(h.merkleRoot)
    && Get(m, "encrypted") == Bool(h.encrypted) && Get(m, "body") == h.body
    && Get(m, "totalChunks") == Num(h.totalChunks as real) && Get(m, "fileSize") == Num(h.fileSize as real)
    && Get(m, "chunkSize") == Num(h.chunkSize as real)
    && ShapeWithin(h.totalChunks, h.fileSize, h.chunkSize, limits)
  }

  /** And for the secrets of an encrypted one. */
  predicate SecretsDescribe(m: Json, s: Secrets, limits: Limits) {
    var kdf, wrappedKey, body := Get(m, "kdf"), Get(m, "wrappedKey"), Get(m, "body");
    (kdf.Obj? || kdf.Arr?) && (wrappedKey.Obj? || wrappedKey.Arr?)
    && Get(kdf, "name").Str? && IsText(Get(kdf, "name"), Get(kdf, "name").text, 64)
    && KdfDescribes(kdf, Get(kdf, "name").text, s.kdf, limits)
    && IsText(Get(kdf, "salt"), s.kdfSalt, 128) && IsBase64(s.kdfSalt)
    && IsText(Get(m, "fileSalt"), s.fileSalt, 128) && IsBase64(s.fileSalt)
    && IsText(Get(wrappedKey, "iv"), s.iv, 64) && IsBase64(s.iv)
    && IsText(Get(wrappedKey, "ciphertext"), s.wrapped, 256) && IsBase64(s.wrapped)
    && IsText(Get(m, "suite"), s.suite, 64)
    && body.Str? && IsText(body, body.text, limits.maxManifestBytes) && IsBase64(body.text)
  }

  predicate HeaderDescribes(m: Json, h: Header, limits: Limits) {
    PublicDescribe(m, h, limits)
    && (if h.encrypted then h.secrets.Some? && SecretsDescribe(m, h.secrets.value, limits)
        else h.secrets.None? && (h.body.Obj? || h.body.Arr?))
  }

  lemma ShapeIsExact(m: Json, s: Shape, limits: Limits)
    ensures ValidateShape(m, limits) == Ok(s)
      <==> Get(m, "totalChunks") == Num(s.totalChunks as real) && Get(m, "fileSize") == Num(s.fileSize as real)
           && Get(m, "chunkSize") == Num(s.chunkSize as real)
           && ShapeWithin(s.totalChunks, s.fileSize, s.chunkSize, limits)
  {
  }

  lemma SecretsAreExact(m: Json, s: Secrets, limits: Limits)
    ensures ValidateSecrets(m, limits) == Ok(s) <==> SecretsDescribe(m, s, limits)
  {
    var kdf := Get(m, "kdf");
    if Get(kdf, "name").Str? {
      KdfIsExact(kdf, Get(kdf, "name").text, s.kdf, limits);
    }
  }

  lemma DescribedHeaderIsAccepted(m: Json, h: Header, limits: Limits)
    requires HeaderDescribes(m, h, limits)
    ensures ValidateManifestHeader(m, limits) == Ok(h)
  {
    HashIsExact(Get(m, "fileHash"), h.fileHash);
    HashIsExact(Get(m, "merkleRoot"), h.merkleRoot);
    ShapeIsExact(m, Shape(h.totalChunks, h.fileSize, h.chunkSize), limits);
    if h.encrypted {
      SecretsAreExact(m, h.secrets.value, limits);
    }
  }

  lemma AcceptedHeaderIsDescribed(m: Json, h: Header, limits: Limits)
    requires ValidateManifestHeader(m, limits) == Ok(h)
    ensures HeaderDescribes(m, h, limits)
  {
    HashIsExact(Get(m, "fileHash"), h.fileHash);
    HashIsExact(Get(m, "merkleRoot"), h.merkleRoot);
    ShapeIsExact(m, ValidateShape(m, limits).value, limits);
    if h.encrypted {
      SecretsAreExact(m, h.secrets.value, limits);
    }
  }

  /** The header check accepts a manifest exactly when some typed header describes it, and returns that one. */
  lemma HeaderIsExact(m: Json, h: Header, limits: Limits)
    ensures ValidateManifestHeader(m, limits) == Ok(h) <==> HeaderDescribes(m, h, limits)
  {
    if HeaderDescribes(m, h, limits) {
      DescribedHeaderIsAccepted(m, h, limits);
    } else if ValidateManifestHeader(m, limits) == Ok(h) {
      AcceptedHeaderIsDescribed(m, h, limits);
    }
  }

  lemma EncryptedHasSecrets(m: Json, limits: Limits)
    requires ValidateManifestHeader(m, limits).Ok? && Get(m, "encrypted") == Bool(true)
    ensures ValidateSecrets(m, limits).Ok?
  {
  }

  // ----- The chunk table -----

  function ValidateEntry(j: Json, totalChunks: nat, chunkSize: nat, limits: Limits): (r: Result<Entry, string>)
    requires totalChunks > 0
    ensures r.Ok? ==> r.value.index < totalChunks && IsLocation(r.value.location)
    ensures r.Ok? ==> IsHex32(r.value.plainHash) && IsHex32(r.value.payloadHash)
    ensures r.Ok? ==> r.value.plainSize <= chunkSize && r.value.storedSize <= chunkSize + limits.maxAeadOverhead
  {
    if !j.Obj? then Err("every chunk entry must be an object")
    else
      var index :- RequireNat(Get(j, "index"), 0, totalChunks - 1);
      var location :- RequireLocation(Get(j, "location"));
      var plainHash :- RequireHash(Get(j, "plainHash"));
      var payloadHash :- RequireHash(Get(j, "payloadHash"));
      var plainSize :- RequireNat(Get(j, "plainSize"), 0, chunkSize);
      var storedSize :- RequireNat(Get(j, "storedSize"), 0, chunkSize + limits.maxAeadOverhead);
      Ok(Entry(index, location, plainHash, payloadHash, plainSize, storedSize))
  }

  /** What it takes for a JSON object to stand for a typed entry. */
  predicate EntryDescribes(j: Json, e: Entry, totalChunks: nat, chunkSize: nat, limits: Limits) {
    j.Obj? && Get(j, "index") == Num(e.index as real) && e.index < totalChunks
    && Get(j, "location") == Str(e.location) && IsLocation(e.location)
    && Get(j, "plainHash") == Str(e.plainHash) && IsHex32(e.plainHash)
    && Get(j, "payloadHash") == Str(e.payloadHash) && IsHex32(e.payloadHash)
    && Get(j, "plainSize") == Num(e.plainSize as real) && e.plainSize <= chunkSize
    && Get(j, "storedSize") == Num(e.storedSize as real) && e.storedSize <= chunkSize + limits.maxAeadOverhead
  }

  lemma NatIsExact(v: Json, min: nat, max: int, n: nat)
    ensures RequireNat(v, min, max) == Ok(n) <==> v == Num(n as real) && min <= n <= max
  {
  }

  lemma LocationIsExact(v: Json, s: string)
    ensures RequireLocation(v) == Ok(s) <==> v == Str(s) && IsLocation(s)
  {
    if IsLocation(s) {
      Utf16LengthOfBasic(s);
    }
  }

  /** The entry check accepts exactly what a typed entry describes, and returns that one. */
  lemma EntryIsExact(j: Json, e: Entry, totalChunks: nat, chunkSize: nat, limits: Limits)
    requires totalChunks > 0
    ensures ValidateEntry(j, totalChunks, chunkSize, limits) == Ok(e)
       <==> EntryDescribes(j, e, totalChunks, chunkSize, limits)
  {
    NatIsExact(Get(j, "index"), 0, totalChunks - 1, e.index);
    LocationIsExact(Get(j, "location"), e.location);
    HashIsExact(Get(j, "plainHash"), e.plainHash);
    HashIsExact(Get(j, "payloadHash"), e.payloadHash);
    NatIsExact(Get(j, "plainSize"), 0, chunkSize, e.plainSize);
    NatIsExact(Get(j, "storedSize"), 0, chunkSize + limits.maxAeadOverhead, e.storedSize);
  }

  function PlainTotal(chunks: seq<Entry>): nat {
    if chunks == [] then 0 else PlainTotal(chunks[..|chunks| - 1]) + chunks[|chunks| - 1].plainSize
  }

  predicate DistinctIndices(chunks: seq<Entry>) {
    forall i, k :: 0 <= i < k < |chunks| ==> chunks[i].index != chunks[k].index
  }

  /** The entries that a list of JSON entries parses to, if each does. */
  predicate ParseTo(items: seq<Json>, chunks: seq<Entry>, h: Header, limits: Limits)
    requires h.totalChunks > 0
  {
    |items| == |chunks|
    && forall i :: 0 <= i < |items| ==> ValidateEntry(items[i], h.totalChunks, h.chunkSize, limits) == Ok(chunks[i])
  }

  /** What it takes for a JSON list to stand for a typed chunk table. */
  predicate TableDescribes(items: seq<Json>, chunks: seq<Entry>, h: Header, limits: Limits)
    requires h.totalChunks > 0
  {
    |chunks| == h.totalChunks && ParseTo(items, chunks, h, limits)
    && DistinctIndices(chunks) && PlainTotal(chunks) == h.fileSize
  }

  /** What it takes for a JSON body to stand for a typed one. */
  predicate Describes(j: Json, b: Body, h: Header, limits: Limits)
    requires h.totalChunks > 0
  {
    j.Obj? && !Polluted(j)
    && RequireString(Get(j, "fileName"), 512) == Ok(b.fileName)
    && RequireString(Get(j, "mimeType"), 255) == Ok(b.mimeType)
    && Get(j, "chunks").Arr? && TableDescribes(Get(j, "chunks").items, b.chunks, h, limits)
  }

  lemma ParseToIsUnique(items: seq<Json>, a: seq<Entry>, b: seq<Entry>, h: Header, limits: Limits)
    requires h.totalChunks > 0 && ParseTo(items, a, h, limits) && ParseTo(items, b, h, limits)
    ensures a == b
  {
    forall i | 0 <= i < |items| ensures a[i] == b[i] {
      assert Ok(a[i]) == ValidateEntry(items[i], h.totalChunks, h.chunkSize, limits) == Ok(b[i]);
    }
  }

  ghost predicate SeenIndices(seen: set<nat>, chunks: seq<Entry>) {
    (forall k :: 0 <= k < |chunks| ==> chunks[k].index in seen) && |seen| == |chunks|
    && forall n :: n in seen ==> HasIndex(chunks, n)
  }

  ghost predicate HasIndex(chunks: seq<Entry>, n: nat) {
    exists k :: 0 <= k < |chunks| && chunks[k].index == n
  }

  lemma SeeIndex(seen: set<nat>, chunks: seq<Entry>, next: Entry)
    requires SeenIndices(seen, chunks) && DistinctIndices(chunks)
    ensures next.index in seen <==> HasIndex(chunks, next.index)
    ensures next.index !in seen ==>
      SeenIndices(seen + {next.index}, chunks + [next]) && DistinctIndices(chunks + [next])
  {
    if next.index !in seen {
      forall n | n in seen + {next.index} ensures HasIndex(chunks + [next], n) {
        if n == next.index {
          assert (chunks + [next])[|chunks|].index == n;
        } else {
          var k :| 0 <= k < |chunks| && chunks[k].index == n;
          assert (chunks + [next])[k].index == n;
        }
      }
    }
  }

  /** No typed table can describe a list one of whose entries is malformed or repeats an earlier index. */
  lemma BadEntryDescribesNothing(items: seq<Json>, done: seq<Entry>, b: seq<Entry>, h: Header, limits: Limits)
    requires h.totalChunks > 0 && |done| < |items|
    requires ParseTo(items[..|done|], done, h, limits)
    requires ParseTo(items, b, h, limits) && DistinctIndices(b)
    ensures done == b[..|done|]
    ensures ValidateEntry(items[|done|], h.totalChunks, h.chunkSize, limits).Ok?
    ensures !HasIndex(done, ValidateEntry(items[|done|], h.totalChunks, h.chunkSize, limits).value.index)
  {
    assert forall i :: 0 <= i < |done| ==> items[..|done|][i] == items[i];
    assert ParseTo(items[..|done|], b[..|done|], h, limits);
    ParseToIsUnique(items[..|done|], done, b[..|done|], h, limits);
    assert ValidateEntry(items[|done|], h.totalChunks, h.chunkSize, limits) == Ok(b[|done|]);
  }

  lemma ParseNext(items: seq<Json>, done: seq<Entry>, next: Entry, h: Header, limits: Limits)
    requires h.totalChunks > 0 && |done| < |items|
    requires ParseTo(items[..|done|], done, h, limits)
    requires ValidateEntry(items[|done|], h.totalChunks, h.chunkSize, limits) == Ok(next)
    ensures ParseTo(items[..|done| + 1], done + [next], h, limits)
    ensures PlainTotal(done + [next]) == PlainTotal(done) + next.plainSize
  {
    assert (done + [next])[..|done|] == done;
    forall i | 0 <= i <= |done|
      ensures ValidateEntry(items[..|done| + 1][i], h.totalChunks, h.chunkSize, limits) == Ok((done + [next])[i])
    {
      if i < |done| {
        assert items[..|done|][i] == items[i];
      }
    }
  }

  /** The chunk table loop accepts a body exactly when some typed body describes it, and returns that one. */
  method ValidateManifestBody(j: Json, h: Header, limits: Limits) returns (r: Result<Body, string>)
    requires h.totalChunks > 0
    ensures r.Ok? ==> Describes(j, r.value, h, limits)
    ensures r.Err? ==> forall b :: !Describes(j, b, h, limits)
  {
    if !j.Obj? {
      return Err("manifest body must be an object");
    }
    if Polluted(j) {
      return Err("forbidden key");
    }
    var fileName := RequireString(Get(j, "fileName"), 512);
    if fileName.Err? {
      return Err(fileName.error);
    }
    var mimeType := RequireString(Get(j, "mimeType"), 255);
    if mimeType.Err? {
      return Err(mimeType.error);
    }
    if !Get(j, "chunks").Arr? {
      return Err("body.chunks must be an array");
    }
    var chunks := ValidateTable(Get(j, "chunks").items, h, limits);
    if chunks.Err? {
      return Err(chunks.error);
    }
    forall b | Describes(j, b, h, limits) ensures b == Body(fileName.value, mimeType.value, chunks.value) {
      ParseToIsUnique(Get(j, "chunks").items, chunks.value, b.chunks, h, limits);
    }
    return Ok(Body(fileName.value, mimeType.value, chunks.value));
  }

  method ValidateTable(items: seq<Json>, h: Header, limits: Limits) returns (r: Result<seq<Entry>, string>)
    requires h.totalChunks > 0
    ensures r.Ok? ==> TableDescribes(items, r.value, h, limits)
    ensures r.Err? ==> forall b :: !TableDescribes(items, b, h, limits)
  {
    if |items| != h.totalChunks {
      return Err("the header declares another number of entries");
    }
    var seen: set<nat> := {};
    var totalPlain := 0;
    var chunks: seq<Entry> := [];
    for i := 0 to |items|
      invariant |chunks| == i && ParseTo(items[..i], chunks, h, limits)
      invariant SeenIndices(seen, chunks) && DistinctIndices(chunks)
      invariant totalPlain == PlainTotal(chunks)
    {
      forall b | TableDescribes(items, b, h, limits)
        ensures ValidateEntry(items[i], h.totalChunks, h.chunkSize, limits).Ok?
        ensures !HasIndex(chunks, ValidateEntry(items[i], h.totalChunks, h.chunkSize, limits).value.index)
      {
        BadEntryDescribesNothing(items, chunks, b, h, limits);
      }
      var entry := ValidateEntry(items[i], h.totalChunks, h.chunkSize, limits);
      if entry.Err? {
        return Err(entry.error);
      }
      SeeIndex(seen, chunks, entry.value);
      if entry.value.index in seen {
        return Err("duplicate chunk index");
      }
      seen := seen + {entry.value.index};
      totalPlain := totalPlain + entry.value.plainSize;
      ParseNext(items, chunks, entry.value, h, limits);
      chunks := chunks + [entry.value];
    }
    assert items[..|items|] == items;
    if |seen| != h.totalChunks {
      return Err("chunk table is missing indices");
    }
    if totalPlain != h.fileSize {
      forall b | TableDescribes(items, b, h, limits) ensures false {
        ParseToIsUnique(items, chunks, b, h, limits);
      }
      return Err("chunk sizes do not add up");
    }
    return Ok(chunks);
  }

  function AssertWithinBudget(fileSize: nat, limits: Limits): Result<(), string> {
    if fileSize > limits.maxInMemoryBytes then Err("above the in-memory limit") else Ok(())
  }
}
