/** What was anchored is what comes back: integrity, round trip and position binding of restored files. */
module RestoreTheorems {
  import opened Bytes
  import opened Chunker
  import opened ChunkTable
  import opened Crypto
  import opened Doubles
  import opened Hex
  import opened Json
  import opened Manifest
  import opened MerkleTree
  import opened Restore
  import opened Text
  import opened Validate
  import opened Wrappers
  import opened WriterMeetsReader

  // ----- What the sequential stream delivers -----

  /** It yields verified outcomes in order, and all of them only past the root check. */
  lemma {:induction false} DeliverYields(sha: Sha, h: Header, expected: string, outcomes: seq<Result<Bytes, string>>,
                                         signalAt: Option<nat>, plains: seq<Bytes>)
    requires |plains| < |outcomes| && forall i :: 0 <= i < |plains| ==> outcomes[i] == Ok(plains[i])
    ensures var s := Deliver(sha, h, expected, outcomes, signalAt, plains);
      |plains| <= |s.yielded| <= |outcomes|
      && (forall i :: 0 <= i < |s.yielded| ==> outcomes[i] == Ok(s.yielded[i]))
      && (s.failure.None? <==> |s.yielded| == |outcomes|)
      && (|s.yielded| == |outcomes| ==> RootFault(sha, h, expected, s.yielded).None?)
    decreases |outcomes| - |plains|
  {
    if !Aborted(signalAt, |plains|) && outcomes[|plains|].Ok? && |plains| + 1 < |outcomes| {
      DeliverYields(sha, h, expected, outcomes, signalAt, plains + [outcomes[|plains|].value]);
    }
  }

  /** Why the stream ends where it does: the first of an abort, a bad block, and before the last chunk a wrong root. */
  predicate StopsThere(sha: Sha, h: Header, expected: string, outcomes: seq<Result<Bytes, string>>,
                       signalAt: Option<nat>, yielded: seq<Bytes>, failure: string)
    requires |yielded| < |outcomes|
  {
    var k := |yielded|;
    if signalAt.Some? && signalAt.value <= k then failure == "operation aborted"
    else if outcomes[k].Err? then failure == outcomes[k].error
    else
      k + 1 == |outcomes|
      && (var root := To0x(ChunksRoot(sha, yielded + [outcomes[k].value]));
          root != h.merkleRoot || (expected != "" && root != ToLower(expected)))
  }

  lemma {:induction false} DeliverStops(sha: Sha, h: Header, expected: string, outcomes: seq<Result<Bytes, string>>,
                                        signalAt: Option<nat>, plains: seq<Bytes>)
    requires |plains| <= |outcomes| && (signalAt.Some? ==> |plains| <= signalAt.value)
    ensures var s := Deliver(sha, h, expected, outcomes, signalAt, plains);
      (signalAt.Some? ==> |s.yielded| <= signalAt.value)
      && (s.failure.Some? ==>
            |s.yielded| < |outcomes|
            && StopsThere(sha, h, expected, outcomes, signalAt, s.yielded, s.failure.value))
    decreases |outcomes| - |plains|
  {
    if |plains| < |outcomes| && !Aborted(signalAt, |plains|) && outcomes[|plains|].Ok? {
      var next := plains + [outcomes[|plains|].value];
      if !(|next| == |outcomes| && RootFault(sha, h, expected, next).Some?) {
        DeliverStops(sha, h, expected, outcomes, signalAt, next);
      }
    }
  }

  /** When every outcome is a chunk, nothing aborts and the root agrees, everything is delivered. */
  lemma {:induction false} DeliverAll(sha: Sha, h: Header, expected: string, outcomes: seq<Result<Bytes, string>>,
                                      chunks: seq<Bytes>, plains: seq<Bytes>)
    requires |chunks| == |outcomes| > 0 && forall i :: 0 <= i < |chunks| ==> outcomes[i] == Ok(chunks[i])
    requires plains <= chunks && RootFault(sha, h, expected, chunks).None?
    ensures Deliver(sha, h, expected, outcomes, None, plains) == Streamed(chunks, None)
    decreases |chunks| - |plains|
  {
    if |plains| < |chunks| {
      var next := plains + [chunks[|plains|]];
      assert next <= chunks;
      assert |next| == |chunks| ==> next == chunks;
      DeliverAll(sha, h, expected, outcomes, chunks, next);
    }
  }

  // ----- Integrity against any storage and any manifest -----

  /**
   * For any manifest, any chunk table, any replies and any concurrency: a stream that yields all its chunks against
   * the root of some chunk list has yielded that list, or the two lists' hashing collides.  A wrong root therefore
   * never gets past the last chunk.
   */
  lemma StreamedIsOriginal(p: Platform, m: Json, o: Opened, fetch: Entry -> Reply, expected: string, limits: Limits,
                           signalAt: Option<nat>, original: seq<Bytes>)
    requires FullLength(p.hkdf) && |original| > 0
    requires expected != "" && ToLower(expected) == To0x(ChunksRoot(p.sha, original))
    ensures var s := StreamResult(p, m, o, fetch, expected, limits, signalAt);
      s.failure.None? ==>
        |s.yielded| > 0
        && (s.yielded == original || Clash(p.sha, Committed(p.sha, original), Committed(p.sha, s.yielded)))
    ensures var s := StreamResult(p, m, o, fetch, expected, limits, signalAt);
      var header := ValidateManifestHeader(m, limits);
      (header.Ok? && |s.yielded| == header.value.totalChunks) ==> s.failure.None?
  {
    var header := ValidateManifestHeader(m, limits);
    if header.Ok? && CheckTable(header.value, o.body.chunks).Ok? {
      var h, entries := header.value, CheckTable(header.value, o.body.chunks).value;
      var outcomes := Outcomes(p, h, o.keys, entries, fetch);
      DeliverYields(p.sha, h, expected, outcomes, signalAt, []);
      var s := Deliver(p.sha, h, expected, outcomes, signalAt, []);
      if s.failure.None? {
        To0xIsInjective(ChunksRoot(p.sha, s.yielded), ChunksRoot(p.sha, original));
        RootBindsChunks(p.sha, original, s.yielded);
      }
    }
  }

  /** The same for the buffered restore, stated on whole files: what comes back is the file that was anchored. */
  lemma RestoredIsOriginal(p: Platform, m: Json, o: Opened, fetch: Entry -> Reply, expected: string, limits: Limits,
                           signalAt: Option<nat>, file: Bytes, chunkSize: nat)
    requires FullLength(p.hkdf) && chunkSize > 0 && expected != ""
    requires ToLower(expected) == To0x(ChunksRoot(p.sha, Chunks(file, chunkSize)))
    requires RestoreResult(p, m, o, fetch, expected, limits, signalAt).Ok?
    ensures var s := StreamResult(p, m, o, fetch, expected, limits, signalAt);
      |s.yielded| > 0
      && (RestoreResult(p, m, o, fetch, expected, limits, signalAt).value.bytes == file
          || Clash(p.sha, Committed(p.sha, Chunks(file, chunkSize)), Committed(p.sha, s.yielded)))
  {
    StreamedIsOriginal(p, m, o, fetch, expected, limits, signalAt, Chunks(file, chunkSize));
    JoinUndoesChunks(file, chunkSize);
  }

  /**
   * What a stream has to show for its end, under any expected root and none: having yielded all, that the chunks hash
   * to the manifest's root and to the one expected; otherwise the one reason for which it stops there.
   */
  lemma StreamEndsExactly(p: Platform, m: Json, o: Opened, fetch: Entry -> Reply, expected: string, limits: Limits,
                          signalAt: Option<nat>, h: Header, s: Streamed)
    requires FullLength(p.hkdf) && ValidateManifestHeader(m, limits) == Ok(h)
    requires |o.body.chunks| == h.totalChunks && GapFree(Sorted(o.body.chunks))
    requires s == StreamResult(p, m, o, fetch, expected, limits, signalAt)
    ensures s.failure.None? <==> |s.yielded| == h.totalChunks
    ensures s.failure.None? ==>
      To0x(ChunksRoot(p.sha, s.yielded)) == h.merkleRoot && (expected != "" ==> h.merkleRoot == ToLower(expected))
    ensures signalAt.Some? ==> |s.yielded| <= signalAt.value
    ensures s.failure.Some? ==>
      |s.yielded| < h.totalChunks
      && StopsThere(p.sha, h, expected, Outcomes(p, h, o.keys, Sorted(o.body.chunks), fetch), signalAt, s.yielded,
                    s.failure.value)
  {
    var outcomes := Outcomes(p, h, o.keys, Sorted(o.body.chunks), fetch);
    DeliverYields(p.sha, h, expected, outcomes, signalAt, []);
    DeliverStops(p.sha, h, expected, outcomes, signalAt, []);
  }

  /**
   * The buffered restore succeeds exactly if the header is accepted, the file fits in memory, the stream yields all
   * its chunks and their bytes have the hash and the size the manifest states: whatever root is expected, or none.
   */
  lemma RestoredIsWhatIsStated(p: Platform, m: Json, o: Opened, fetch: Entry -> Reply, expected: string,
                               limits: Limits, signalAt: Option<nat>, s: Streamed, r: Result<Restored, string>)
    requires FullLength(p.hkdf)
    requires s == StreamResult(p, m, o, fetch, expected, limits, signalAt)
    requires r == RestoreResult(p, m, o, fetch, expected, limits, signalAt)
    ensures var header := ValidateManifestHeader(m, limits);
      r.Ok? <==>
      header.Ok? && header.value.fileSize <= limits.maxInMemoryBytes && s.failure.None?
      && To0x(p.sha(Join(s.yielded))) == header.value.fileHash && |Join(s.yielded)| == header.value.fileSize
    ensures r.Ok? ==>
      var h := ValidateManifestHeader(m, limits).value;
      r.value.bytes == Join(s.yielded) && s.yielded != []
      && To0x(p.sha(r.value.bytes)) == r.value.fileHash == h.fileHash && |r.value.bytes| == h.fileSize
      && To0x(ChunksRoot(p.sha, s.yielded)) == r.value.merkleRoot == h.merkleRoot
      && r.value.fileName == o.body.fileName && r.value.mimeType == o.body.mimeType
  {
    var header := ValidateManifestHeader(m, limits);
    if header.Ok? && s.failure.None? {
      StreamEndsExactly(p, m, o, fetch, expected, limits, signalAt, header.value, s);
    }
  }

  /** What every yielded chunk has passed: it is what the sorted table's entry recorded, byte for byte and by place. */
  predicate Checked(p: Platform, h: Header, keys: Option<OpenKeys>, e: Entry, reply: Reply, plain: Bytes)
    requires FullLength(p.hkdf) && (h.encrypted ==> h.secrets.Some?)
  {
    reply.Data? && |reply.bytes| == e.storedSize && Decoded(Some(e.payloadHash)) == Ok(p.sha(reply.bytes))
    && |plain| == e.plainSize && Decrypted(p, h, keys, e.index, reply.bytes) == Ok(plain)
  }

  lemma FetchIsExact(p: Platform, h: Header, keys: Option<OpenKeys>, e: Entry, reply: Reply, plain: Bytes)
    requires FullLength(p.hkdf) && (h.encrypted ==> h.secrets.Some?)
    ensures FetchAndVerify(p, h, keys, e, reply) == Ok(plain) <==> Checked(p, h, keys, e, reply, plain)
  {
  }

  lemma DeliveredChunkIsChecked(p: Platform, h: Header, keys: Option<OpenKeys>, entries: seq<Entry>,
                                fetch: Entry -> Reply, expected: string, signalAt: Option<nat>, s: Streamed, i: nat)
    requires FullLength(p.hkdf) && (h.encrypted ==> h.secrets.Some?) && |entries| > 0
    requires s == Deliver(p.sha, h, expected, Outcomes(p, h, keys, entries, fetch), signalAt, []) && i < |s.yielded|
    ensures i < |entries| && Checked(p, h, keys, entries[i], fetch(entries[i]), s.yielded[i])
  {
    DeliverYields(p.sha, h, expected, Outcomes(p, h, keys, entries, fetch), signalAt, []);
    FetchIsExact(p, h, keys, entries[i], fetch(entries[i]), s.yielded[i]);
  }

  lemma YieldingMeansAccepted(p: Platform, m: Json, o: Opened, fetch: Entry -> Reply, expected: string,
                              limits: Limits, signalAt: Option<nat>)
    requires FullLength(p.hkdf) && StreamResult(p, m, o, fetch, expected, limits, signalAt).yielded != []
    ensures var h := ValidateManifestHeader(m, limits);
      h.Ok? && h.value.totalChunks == |o.body.chunks| && GapFree(Sorted(o.body.chunks))
      && StreamResult(p, m, o, fetch, expected, limits, signalAt)
      == Deliver(p.sha, h.value, expected, Outcomes(p, h.value, o.keys, Sorted(o.body.chunks), fetch), signalAt, [])
  {
  }

  /** No altered, truncated or misplaced block is ever handed over, with or without an expected root. */
  lemma YieldedChunksAreChecked(p: Platform, m: Json, o: Opened, fetch: Entry -> Reply, expected: string,
                                limits: Limits, signalAt: Option<nat>, s: Streamed, i: nat)
    requires FullLength(p.hkdf) && s == StreamResult(p, m, o, fetch, expected, limits, signalAt) && i < |s.yielded|
    ensures var h := ValidateManifestHeader(m, limits);
      h.Ok? && i < h.value.totalChunks == |o.body.chunks| && GapFree(Sorted(o.body.chunks))
      && Checked(p, h.value, o.keys, Sorted(o.body.chunks)[i], fetch(Sorted(o.body.chunks)[i]), s.yielded[i])
  {
    YieldingMeansAccepted(p, m, o, fetch, expected, limits, signalAt);
    DeliveredChunkIsChecked(p, ValidateManifestHeader(m, limits).value, o.keys, Sorted(o.body.chunks), fetch, expected,
                            signalAt, s, i);
  }

  // ----- Round trip -----

  /** Storage returns, for the entry of chunk i, the payload that was stored for it. */
  ghost predicate StorageReturnsWhatWasPut(packed: Packed, body: Body, fetch: Entry -> Reply)
    requires |body.chunks| == |packed.chunks|
  {
    forall i :: 0 <= i < |body.chunks| ==> fetch(body.chunks[i]) == Data(packed.chunks[i].payload)
  }

  /** A file the writer accepts, with randomness, names and locations the format can carry. */
  ghost predicate Sealable(p: Platform, file: Bytes, o: Options, random: Random, locations: seq<string>) {
    LawfulPlatform(p) && Accepts(|file|, o) && Holdable(file, o) && RightSizes(random)
    && Presentable(p, file, o, PackedOf(p, file, o, random), locations)
  }

  /** The file is sealable, its payloads are served as they were put, and the root, if one is expected, is its own. */
  ghost predicate HonestlyStored(p: Platform, file: Bytes, o: Options, random: Random, locations: seq<string>,
                                 order: seq<nat>, fetch: Entry -> Reply, expected: string)
  {
    Sealable(p, file, o, random, locations) && |order| == |locations| && IsPermutation(order)
    && StorageReturnsWhatWasPut(PackedOf(p, file, o, random), BodyOf(PackedOf(p, file, o, random), locations), fetch)
    && (expected == "" || ToLower(expected) == To0x(ChunksRoot(p.sha, Chunks(file, o.chunkSize))))
  }

  function SealedHeader(p: Platform, file: Bytes, o: Options, random: Random, locations: seq<string>): Header
    requires FullLength(p.hkdf) && Accepts(|file|, o) && |locations| == |Chunks(file, o.chunkSize)|
  {
    HeaderOf(p, PackedOf(p, file, o, random), locations, random.iv)
  }

  function SealedKeys(o: Options, random: Random): Option<OpenKeys> {
    if Encrypts(o) then Some(OpenKeys(random.fileKey, random.fileSalt)) else None
  }

  lemma HonestPayloadDecrypts(p: Platform, file: Bytes, o: Options, random: Random, h: Header, i: nat)
    requires LawfulPlatform(p) && Accepts(|file|, o) && i < |Chunks(file, o.chunkSize)|
    requires h.encrypted == Encrypts(o) && h.fileHash == To0x(p.sha(file))
    requires h.totalChunks == |Chunks(file, o.chunkSize)|
    requires h.encrypted ==> h.secrets.Some? && h.secrets.value.suite == o.suite
    ensures var plain := Chunks(file, o.chunkSize);
      Decrypted(p, h, SealedKeys(o, random), i, PayloadOf(p, o, random, h.fileHash, i, |plain|, plain[i]))
      == Ok(plain[i])
  {
    if Encrypts(o) {
      var plain := Chunks(file, o.chunkSize);
      DecryptUndoesEncrypt(p.hkdf, p.ciphers, plain[i], random.fileKey, random.fileSalt, i,
                           ChunkAad(h.fileHash, i, |plain|), o.suite);
    }
  }

  lemma HonestChunkVerifies(p: Platform, file: Bytes, o: Options, random: Random, locations: seq<string>, i: nat)
    requires Sealable(p, file, o, random, locations) && i < |locations|
    ensures var packed := PackedOf(p, file, o, random);
      FetchAndVerify(p, SealedHeader(p, file, o, random, locations), SealedKeys(o, random),
                     BodyOf(packed, locations).chunks[i], Data(packed.chunks[i].payload))
      == Ok(Chunks(file, o.chunkSize)[i])
  {
    var packed, plain := PackedOf(p, file, o, random), Chunks(file, o.chunkSize);
    var h := SealedHeader(p, file, o, random, locations);
    var payload := PayloadOf(p, o, random, h.fileHash, i, |plain|, plain[i]);
    HonestPayloadDecrypts(p, file, o, random, h, i);
    DescribedPayloadPasses(p, h, SealedKeys(o, random), BodyOf(packed, locations).chunks[i], payload, plain[i]);
  }

  lemma DescribedPayloadPasses(p: Platform, h: Header, keys: Option<OpenKeys>, e: Entry, payload: Bytes, plain: Bytes)
    requires FullLength(p.hkdf) && (h.encrypted ==> h.secrets.Some?)
    requires |payload| == e.storedSize && e.payloadHash == To0x(p.sha(payload)) && |plain| == e.plainSize
    requires Decrypted(p, h, keys, e.index, payload) == Ok(plain)
    ensures FetchAndVerify(p, h, keys, e, Data(payload)) == Ok(plain)
  {
    DecodedUndoesTo0x(p.sha(payload));
  }

  lemma SealedTableIsGapFree(p: Platform, file: Bytes, o: Options, random: Random, locations: seq<string>)
    requires Sealable(p, file, o, random, locations)
    ensures GapFree(BodyOf(PackedOf(p, file, o, random), locations).chunks)
  {
    forall i | 0 <= i < |locations| ensures BodyOf(PackedOf(p, file, o, random), locations).chunks[i].index == i {
      PackedEntryFits(p, file, o, random, locations, i);
    }
  }

  /** Whatever the order of the table, honest storage makes the stream yield exactly the chunks of the file. */
  lemma RoundTripStream(p: Platform, file: Bytes, o: Options, random: Random, locations: seq<string>,
                        order: seq<nat>, fetch: Entry -> Reply, expected: string, m: Json, shuffled: Opened)
    requires HonestlyStored(p, file, o, random, locations, order, fetch, expected)
    requires ValidateManifestHeader(m, o.limits) == Ok(SealedHeader(p, file, o, random, locations))
    requires shuffled.keys == SealedKeys(o, random)
    requires shuffled.body.chunks == Reordered(BodyOf(PackedOf(p, file, o, random), locations).chunks, order)
    ensures StreamResult(p, m, shuffled, fetch, expected, o.limits, None)
         == Streamed(Chunks(file, o.chunkSize), None)
  {
    var plain, h := Chunks(file, o.chunkSize), SealedHeader(p, file, o, random, locations);
    var entries := BodyOf(PackedOf(p, file, o, random), locations).chunks;
    SealedTableIsGapFree(p, file, o, random, locations);
    SortUndoesReordering(entries, order);
    assert CheckTable(h, shuffled.body.chunks) == Ok(entries);
    var outcomes := Outcomes(p, h, shuffled.keys, entries, fetch);
    forall i | 0 <= i < |plain| ensures outcomes[i] == Ok(plain[i]) {
      HonestChunkVerifies(p, file, o, random, locations, i);
    }
    DeliverAll(p.sha, h, expected, outcomes, plain, []);
  }

  lemma ChunksReassemble(p: Platform, m: Json, h: Header, o: Opened, fetch: Entry -> Reply, expected: string,
                         limits: Limits, file: Bytes, chunkSize: nat)
    requires FullLength(p.hkdf) && chunkSize > 0 && ValidateManifestHeader(m, limits) == Ok(h)
    requires StreamResult(p, m, o, fetch, expected, limits, None) == Streamed(Chunks(file, chunkSize), None)
    requires h.fileHash == To0x(p.sha(file)) && h.fileSize == |file| <= limits.maxInMemoryBytes
    requires expected == "" || ToLower(expected) == h.merkleRoot
    ensures RestoreResult(p, m, o, fetch, expected, limits, None)
         == Ok(Restored(file, o.body.fileName, o.body.mimeType, h.fileHash, h.merkleRoot))
  {
    JoinUndoesChunks(file, chunkSize);
  }

  /**
   * Pack, seal, open and restore give back the bytes, the name and the type: for every file and suite the writer
   * accepts, encrypted or not, with the chunk table in any order.
   */
  lemma RoundTrip(p: Platform, file: Bytes, o: Options, random: Random, locations: seq<string>, order: seq<nat>,
                  fetch: Entry -> Reply, expected: string, sealed: Opened, shuffled: Opened)
    requires HonestlyStored(p, file, o, random, locations, order, fetch, expected)
    requires |file| <= o.limits.maxInMemoryBytes
    requires sealed == OpenedOf(PackedOf(p, file, o, random), locations)
    requires shuffled == sealed.(body := sealed.body.(chunks := Reordered(sealed.body.chunks, order)))
    ensures var m := SealManifest(p, PackedOf(p, file, o, random), locations, random.iv);
      m.Ok? && OpensTo(p, m.value, o.passphrase, o.limits, sealed)
      && RestoreResult(p, m.value, shuffled, fetch, expected, o.limits, None)
      == Ok(Restored(file, o.fileName, o.mimeType, To0x(p.sha(file)),
                     To0x(ChunksRoot(p.sha, Chunks(file, o.chunkSize)))))
  {
    SealedManifestOpens(p, file, o, random, locations);
    var m := SealManifest(p, PackedOf(p, file, o, random), locations, random.iv).value;
    RestoredFromShuffled(p, file, o, random, locations, order, fetch, expected, m, shuffled);
  }

  lemma RestoredFromShuffled(p: Platform, file: Bytes, o: Options, random: Random, locations: seq<string>,
                             order: seq<nat>, fetch: Entry -> Reply, expected: string, m: Json, shuffled: Opened)
    requires HonestlyStored(p, file, o, random, locations, order, fetch, expected)
    requires |file| <= o.limits.maxInMemoryBytes
    requires ValidateManifestHeader(m, o.limits) == Ok(SealedHeader(p, file, o, random, locations))
    requires shuffled.keys == SealedKeys(o, random)
    requires shuffled.body.chunks == Reordered(BodyOf(PackedOf(p, file, o, random), locations).chunks, order)
    ensures RestoreResult(p, m, shuffled, fetch, expected, o.limits, None)
         == Ok(Restored(file, shuffled.body.fileName, shuffled.body.mimeType, To0x(p.sha(file)),
                        To0x(ChunksRoot(p.sha, Chunks(file, o.chunkSize)))))
  {
    RoundTripStream(p, file, o, random, locations, order, fetch, expected, m, shuffled);
    ChunksReassemble(p, m, SealedHeader(p, file, o, random, locations), shuffled, fetch, expected, o.limits, file,
                     o.chunkSize);
  }

  // ----- What the root given from the chain decides -----

  /** Whoever serves whatever manifest and blocks, a stream that yields all its chunks has yielded the original. */
  ghost predicate StreamsOnly(p: Platform, limits: Limits, expected: string, original: seq<Bytes>)
    requires FullLength(p.hkdf) && |original| > 0
  {
    forall m: Json, o: Opened, fetch: Entry -> Reply, signalAt: Option<nat> ::
      IsOriginal(p.sha, StreamResult(p, m, o, fetch, expected, limits, signalAt), original)
  }

  ghost predicate IsOriginal(sha: Sha, s: Streamed, original: seq<Bytes>)
    requires |original| > 0
  {
    s.failure.None? ==>
      |s.yielded| > 0 && (s.yielded == original || Clash(sha, Committed(sha, original), Committed(sha, s.yielded)))
  }

  /** Every entry is served the payload that was packed for its index. */
  function ByIndex(packed: Packed): Entry -> Reply {
    (e: Entry) => if e.index < |packed.chunks| then Data(packed.chunks[e.index].payload) else NotBytes
  }

  function InOrderTo(n: nat): seq<nat> {
    seq(n, i => i)
  }

  lemma OrderedIsUnchanged(entries: seq<Entry>)
    ensures IsPermutation(InOrderTo(|entries|)) && Reordered(entries, InOrderTo(|entries|)) == entries
  {
  }

  /** Without a root every file at all streams to its end, under a plain manifest of its own. */
  lemma NoRootStreamsAnyFile(p: Platform, file: Bytes, chunkSize: nat, limits: Limits)
    returns (m: Json, o: Opened, fetch: Entry -> Reply)
    requires LawfulPlatform(p) && chunkSize >= 1 && |file| < EXACT
    requires ShapeWithin(ChunkCount(|file|, chunkSize), |file|, chunkSize, limits)
    ensures StreamResult(p, m, o, fetch, "", limits, None) == Streamed(Chunks(file, chunkSize), None)
  {
    var options := Options("name", "type", None, "", chunkSize, Pbkdf2(0), limits);
    var random := Random(seq(32, _ => 0), seq(16, _ => 0), seq(16, _ => 0), seq(12, _ => 0));
    var packed := PackedOf(p, file, options, random);
    var locations := seq(|packed.chunks|, _ => "location");
    PlainIsSealable(p, file, options, random, locations);
    SealedManifestOpens(p, file, options, random, locations);
    var body := BodyOf(packed, locations);
    SealedTableIsGapFree(p, file, options, random, locations);
    m, o, fetch := SealManifest(p, packed, locations, random.iv).value, OpenedOf(packed, locations), ByIndex(packed);
    OrderedIsUnchanged(body.chunks);
    RoundTripStream(p, file, options, random, locations, InOrderTo(|locations|), fetch, "", m, o);
  }

  lemma PlainIsSealable(p: Platform, file: Bytes, o: Options, random: Random, locations: seq<string>)
    requires LawfulPlatform(p) && Accepts(|file|, o) && |file| < EXACT && RightSizes(random) && !Encrypts(o)
    requires o.fileName == "name" && o.mimeType == "type" && |locations| == |Chunks(file, o.chunkSize)|
    requires forall i :: 0 <= i < |locations| ==> locations[i] == "location"
    ensures Sealable(p, file, o, random, locations)
  {
    Utf16LengthBounds("name");
    Utf16LengthBounds("type");
  }

  /**
   * Exactly when a complete stream is the original: when the original's root is given.  An empty one is compared with
   * nothing; any one other file in shape, whose hashing does not collide with the original's, shows that it then fails.
   */
  lemma StreamBindsExactly(p: Platform, limits: Limits, expected: string, original: seq<Bytes>, other: Bytes,
                           chunkSize: nat)
    requires LawfulPlatform(p) && |original| > 0 && chunkSize >= 1 && |other| < EXACT
    requires expected == "" || ToLower(expected) == To0x(ChunksRoot(p.sha, original))
    requires ShapeWithin(ChunkCount(|other|, chunkSize), |other|, chunkSize, limits)
    requires Chunks(other, chunkSize) != original
    requires !Clash(p.sha, Committed(p.sha, original), Committed(p.sha, Chunks(other, chunkSize)))
    ensures StreamsOnly(p, limits, expected, original) <==> expected != ""
  {
    if expected != "" {
      forall m: Json, o: Opened, fetch: Entry -> Reply, signalAt: Option<nat>
        ensures IsOriginal(p.sha, StreamResult(p, m, o, fetch, expected, limits, signalAt), original)
      {
        StreamedIsOriginal(p, m, o, fetch, expected, limits, signalAt, original);
      }
    } else {
      var m, o, fetch := NoRootStreamsAnyFile(p, other, chunkSize, limits);
      assert !IsOriginal(p.sha, StreamResult(p, m, o, fetch, "", limits, None), original);
    }
  }
}
