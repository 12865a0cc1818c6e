/**
 * A chunk opens only in its own place: over any set of packed files, in the symbolic model of the ciphers.
 *
 * Storage may serve anything.  The one assumption is that, for the key and place a reader uses, a payload opens only
 * to something that was sealed under that very key material and additional data by one of the packed files.
 */
module PositionBinding {
  import opened Bytes
  import opened Chunker
  import opened ChunkTable
  import opened Crypto
  import opened Hex
  import opened Json
  import opened Manifest
  import opened Restore
  import opened RestoreTheorems
  import opened Suites
  import opened Text
  import opened Validate
  import opened Wrappers

  /** One call of packFile that succeeded. */
  datatype PackRun = PackRun(file: Bytes, options: Options, random: Random)

  predicate Packs(run: PackRun) {
    Accepts(|run.file|, run.options) && Encrypts(run.options)
  }

  function PlainChunks(run: PackRun): seq<Bytes>
    requires Packs(run)
  {
    Chunks(run.file, run.options.chunkSize)
  }

  /** What HKDF was asked for. */
  datatype Request = Request(key: Bytes, salt: Bytes, info: Bytes, size: nat)

  function Answer(p: Platform, request: Request): Bytes {
    p.hkdf(request.key, request.salt, request.info, request.size)
  }

  function RunRequest(run: PackRun, index: nat): Request
    requires Packs(run)
  {
    Request(run.random.fileKey, run.random.fileSalt, Utf8(ChunkInfo(run.options.suite, index)),
            MaterialBytes(GetSuite(run.options.suite).value))
  }

  function ReaderRequest(keys: OpenKeys, suiteName: string, index: nat): Request
    requires GetSuite(suiteName).Some?
  {
    Request(keys.fileKey, keys.fileSalt, Utf8(ChunkInfo(suiteName, index)), MaterialBytes(GetSuite(suiteName).value))
  }

  /** Packing `run` sealed `plain` as chunk `index` under this material and additional data. */
  ghost predicate Sealed(p: Platform, run: PackRun, index: nat, material: Bytes, aad: Bytes, plain: Bytes) {
    Packs(run) && index < |PlainChunks(run)|
    && material == Answer(p, RunRequest(run, index))
    && aad == ChunkAad(To0x(p.sha(run.file)), index, |PlainChunks(run)|)
    && plain == PlainChunks(run)[index]
  }

  /** Sealed triples are exactly what packing encrypts. */
  lemma PackingSeals(p: Platform, run: PackRun, index: nat)
    requires FullLength(p.hkdf) && Packs(run) && index < |PlainChunks(run)|
    ensures var suite := GetSuite(run.options.suite).value;
      var material := Answer(p, RunRequest(run, index));
      var aad := ChunkAad(To0x(p.sha(run.file)), index, |PlainChunks(run)|);
      Sealed(p, run, index, material, aad, PlainChunks(run)[index])
      && PackedOf(p, run.file, run.options, run.random).chunks[index].payload
      == Seal(p.ciphers, suite, material, aad, PlainChunks(run)[index])
  {
    assert PackedOf(p, run.file, run.options, run.random).chunks[index]
        == PackChunk(p, run.options, run.random, To0x(p.sha(run.file)), index, |PlainChunks(run)|,
                     PlainChunks(run)[index]);
  }

  ghost predicate SealedBySome(p: Platform, runs: seq<PackRun>, material: Bytes, aad: Bytes, plain: Bytes) {
    exists r, j :: 0 <= r < |runs| && Sealed(p, runs[r], j, material, aad, plain)
  }

  /** A reply that opens to a text in the place it is served in, though no packing ever sealed the text for it. */
  ghost predicate Forged(p: Platform, runs: seq<PackRun>, h: Header, keys: OpenKeys, i: nat, reply: Reply, plain: Bytes)
    requires FullLength(p.hkdf) && h.encrypted && h.secrets.Some? && GetSuite(h.secrets.value.suite).Some?
  {
    var suite := GetSuite(h.secrets.value.suite).value;
    var material := Answer(p, ReaderRequest(keys, h.secrets.value.suite, i));
    var aad := ChunkAad(h.fileHash, i, h.totalChunks);
    reply.Data? && Open(p.ciphers, suite, material, aad, reply.bytes) == Some(plain)
    && !SealedBySome(p, runs, material, aad, plain)
  }

  lemma NoBarInHex(s: string)
    requires IsHex32(s)
    ensures '|' !in s
  {
    assert s[0] == '0' && s[1] == 'x';
  }

  /** Where a chunk was sealed is where it can be read: same file hash, same index, same count. */
  lemma SealedPlaceIsReadPlace(p: Platform, run: PackRun, j: nat, material: Bytes, fileHash: string, i: nat,
                               totalChunks: nat, plain: Bytes)
    requires Sealed(p, run, j, material, ChunkAad(fileHash, i, totalChunks), plain) && IsHex32(fileHash)
    ensures j == i && To0x(p.sha(run.file)) == fileHash && |PlainChunks(run)| == totalChunks
    ensures plain == PlainChunks(run)[i]
  {
    DecodedUndoesTo0x(p.sha(run.file));
    NoBarInHex(To0x(p.sha(run.file)));
    NoBarInHex(fileHash);
    AadNamesPlace(To0x(p.sha(run.file)), j, |PlainChunks(run)|, fileHash, i, totalChunks);
  }

  /** Equal requests mean equal key, salt, suite and index, whatever the suite names. */
  lemma RequestNamesKey(run: PackRun, i: nat, keys: OpenKeys, suiteName: string, k: nat)
    requires Packs(run) && GetSuite(suiteName).Some? && RunRequest(run, i) == ReaderRequest(keys, suiteName, k)
    ensures run.random.fileKey == keys.fileKey && run.random.fileSalt == keys.fileSalt
    ensures run.options.suite == suiteName && i == k
  {
    SuiteNamesHaveNoSlash(run.options.suite);
    SuiteNamesHaveNoSlash(suiteName);
    InfoNamesPurpose(run.options.suite, i, suiteName, k);
  }

  /** Chunk `i` as read is chunk `i` of this packed file, under its key, or HKDF gave one answer to two requests. */
  ghost predicate ComesFrom(p: Platform, run: PackRun, h: Header, keys: OpenKeys, i: nat, plain: Bytes)
    requires h.secrets.Some? && GetSuite(h.secrets.value.suite).Some?
  {
    Packs(run) && To0x(p.sha(run.file)) == h.fileHash && |PlainChunks(run)| == h.totalChunks
    && i < h.totalChunks && plain == PlainChunks(run)[i]
    && ((run.random.fileKey == keys.fileKey && run.random.fileSalt == keys.fileSalt
         && run.options.suite == h.secrets.value.suite)
        || (RunRequest(run, i) != ReaderRequest(keys, h.secrets.value.suite, i)
            && Answer(p, RunRequest(run, i)) == Answer(p, ReaderRequest(keys, h.secrets.value.suite, i))))
  }

  /**
   * Every chunk an encrypted stream yields at index i is the plaintext of chunk i of a packed file with the same file
   * hash, chunk count, key and suite, or its own reply is a forgery.  Moving, repeating, dropping or splicing chunks
   * yields nothing.
   */
  lemma YieldedChunksKeepTheirPlace(p: Platform, runs: seq<PackRun>, m: Json, o: Opened, fetch: Entry -> Reply,
                                    expected: string, limits: Limits, signalAt: Option<nat>, s: Streamed, i: nat,
                                    h: Header)
    requires FullLength(p.hkdf) && o.keys.Some? && ValidateManifestHeader(m, limits) == Ok(h)
    requires h.encrypted && GetSuite(h.secrets.value.suite).Some?
    requires s == StreamResult(p, m, o, fetch, expected, limits, signalAt) && i < |s.yielded|
    ensures i < |o.body.chunks| == |Sorted(o.body.chunks)|
    ensures (exists r :: 0 <= r < |runs| && ComesFrom(p, runs[r], h, o.keys.value, i, s.yielded[i]))
      || Forged(p, runs, h, o.keys.value, i, fetch(Sorted(o.body.chunks)[i]), s.yielded[i])
  {
    var entries, plain := Sorted(o.body.chunks), s.yielded[i];
    DeliverYields(p.sha, h, expected, Outcomes(p, h, o.keys, entries, fetch), signalAt, []);
    assert FetchAndVerify(p, h, o.keys, entries[i], fetch(entries[i])) == Ok(plain);
    AuthenticComesFrom(p, runs, h, o.keys.value, i, fetch(entries[i]), plain);
  }

  lemma AuthenticComesFrom(p: Platform, runs: seq<PackRun>, h: Header, keys: OpenKeys, i: nat, reply: Reply,
                           plain: Bytes)
    requires FullLength(p.hkdf) && h.encrypted && h.secrets.Some? && GetSuite(h.secrets.value.suite).Some?
    requires IsHex32(h.fileHash) && reply.Data? && Decrypted(p, h, Some(keys), i, reply.bytes) == Ok(plain)
    ensures (exists r :: 0 <= r < |runs| && ComesFrom(p, runs[r], h, keys, i, plain))
      || Forged(p, runs, h, keys, i, reply, plain)
  {
    var material := Answer(p, ReaderRequest(keys, h.secrets.value.suite, i));
    var aad := ChunkAad(h.fileHash, i, h.totalChunks);
    if SealedBySome(p, runs, material, aad, plain) {
      var r, j :| 0 <= r < |runs| && Sealed(p, runs[r], j, material, aad, plain);
      SealedComesFrom(p, runs[r], j, h, keys, i, plain);
    }
  }

  lemma SealedComesFrom(p: Platform, run: PackRun, j: nat, h: Header, keys: OpenKeys, i: nat, plain: Bytes)
    requires h.secrets.Some? && GetSuite(h.secrets.value.suite).Some? && IsHex32(h.fileHash)
    requires Sealed(p, run, j, Answer(p, ReaderRequest(keys, h.secrets.value.suite, i)),
                    ChunkAad(h.fileHash, i, h.totalChunks), plain)
    ensures ComesFrom(p, run, h, keys, i, plain)
  {
    var name := h.secrets.value.suite;
    SealedPlaceIsReadPlace(p, run, j, Answer(p, ReaderRequest(keys, name, i)), h.fileHash, i, h.totalChunks, plain);
    if RunRequest(run, i) == ReaderRequest(keys, name, i) {
      RequestNamesKey(run, i, keys, name, i);
    }
  }

  // ----- Storage that only replays -----

  ghost predicate IsPayload(p: Platform, run: PackRun, j: nat, bytes: Bytes)
    requires FullLength(p.hkdf)
  {
    Packs(run) && j < |PlainChunks(run)|
    && bytes == PackedOf(p, run.file, run.options, run.random).chunks[j].payload
  }

  /** Whatever storage serves was packed at some time, as some chunk of some file, in any arrangement. */
  ghost predicate Replays(p: Platform, runs: seq<PackRun>, entries: seq<Entry>, fetch: Entry -> Reply)
    requires FullLength(p.hkdf)
  {
    forall i :: 0 <= i < |entries| && fetch(entries[i]).Data? ==>
      exists r, j :: 0 <= r < |runs| && IsPayload(p, runs[r], j, fetch(entries[i]).bytes)
  }

  /** All that goes into one sealing. */
  datatype Sealing = Sealing(suite: Suite, material: Bytes, aad: Bytes, plain: Bytes)

  function Writing(p: Platform, run: PackRun, j: nat): Sealing
    requires Packs(run) && j < |PlainChunks(run)|
  {
    Sealing(GetSuite(run.options.suite).value, Answer(p, RunRequest(run, j)),
            ChunkAad(To0x(p.sha(run.file)), j, |PlainChunks(run)|), PlainChunks(run)[j])
  }

  function Reading(p: Platform, h: Header, keys: OpenKeys, i: nat, plain: Bytes): Sealing
    requires h.secrets.Some? && GetSuite(h.secrets.value.suite).Some?
  {
    var name := h.secrets.value.suite;
    Sealing(GetSuite(name).value, Answer(p, ReaderRequest(keys, name, i)), ChunkAad(h.fileHash, i, h.totalChunks),
            plain)
  }

  function SealOf(p: Platform, s: Sealing): Bytes
    requires |s.material| == MaterialBytes(s.suite)
  {
    Seal(p.ciphers, s.suite, s.material, s.aad, s.plain)
  }

  /** Two different sealings with one ciphertext. */
  ghost predicate SealsCollide(p: Platform, s: Sealing, t: Sealing) {
    |s.material| == MaterialBytes(s.suite) && |t.material| == MaterialBytes(t.suite)
    && s != t && SealOf(p, s) == SealOf(p, t)
  }

  lemma ReplayedPayloadKeepsItsPlace(p: Platform, run: PackRun, j: nat, h: Header, keys: OpenKeys, i: nat,
                                     bytes: Bytes, plain: Bytes)
    requires FullLength(p.hkdf) && BothLawful(p.ciphers) && IsPayload(p, run, j, bytes) && IsHex32(h.fileHash)
    requires h.encrypted && h.secrets.Some? && GetSuite(h.secrets.value.suite).Some?
    requires Decrypted(p, h, Some(keys), i, bytes) == Ok(plain)
    ensures ComesFrom(p, run, h, keys, i, plain) || SealsCollide(p, Writing(p, run, j), Reading(p, h, keys, i, plain))
  {
    var reading := Reading(p, h, keys, i, plain);
    OpenInvertsSeal(p.ciphers, reading.suite, reading.material, reading.aad, bytes, plain);
    PackingSeals(p, run, j);
    if Writing(p, run, j) == reading {
      SealedComesFrom(p, run, j, h, keys, i, plain);
    }
  }

  /**
   * Against storage that may serve any payload ever packed in any place, nothing needs to be assumed: each chunk
   * yielded keeps its place, or two different sealings that both took place or were checked have one ciphertext.
   */
  lemma ReplayedChunksKeepTheirPlace(p: Platform, runs: seq<PackRun>, m: Json, o: Opened, fetch: Entry -> Reply,
                                     expected: string, limits: Limits, signalAt: Option<nat>, s: Streamed, i: nat,
                                     h: Header)
    returns (r: nat, j: nat)
    requires FullLength(p.hkdf) && BothLawful(p.ciphers) && o.keys.Some? && ValidateManifestHeader(m, limits) == Ok(h)
    requires h.encrypted && GetSuite(h.secrets.value.suite).Some? && Replays(p, runs, Sorted(o.body.chunks), fetch)
    requires s == StreamResult(p, m, o, fetch, expected, limits, signalAt) && i < |s.yielded|
    ensures r < |runs| && Packs(runs[r])
    ensures ComesFrom(p, runs[r], h, o.keys.value, i, s.yielded[i])
      || (j < |PlainChunks(runs[r])|
          && SealsCollide(p, Writing(p, runs[r], j), Reading(p, h, o.keys.value, i, s.yielded[i])))
  {
    var entries := Sorted(o.body.chunks);
    YieldedChunksAreChecked(p, m, o, fetch, expected, limits, signalAt, s, i);
    var bytes := fetch(entries[i]).bytes;
    r, j :| 0 <= r < |runs| && IsPayload(p, runs[r], j, bytes);
    ReplayedPayloadKeepsItsPlace(p, runs[r], j, h, o.keys.value, i, bytes, s.yielded[i]);
  }
}
