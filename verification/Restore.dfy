/** Fetching, checking and reassembling a file: the look-ahead stream and the buffered restore (js/core/manifest.js). */
module Restore {
  import opened Bytes
  import opened Chunker
  import opened ChunkTable
  import opened Crypto
  import opened Hex
  import opened Json
  import opened Manifest
  import opened MerkleTree
  import opened Numbers
  import opened Validate
  import opened Wrappers

  /** What storage answers for one entry. */
  datatype Reply = Data(bytes: Bytes) | NotBytes | Refused(error: string)

  /** One chunk: stored size, stored hash, authentication, plain size, in that order. */
  function FetchAndVerify(p: Platform, h: Header, keys: Option<OpenKeys>, e: Entry, reply: Reply)
    : Result<Bytes, string>
    requires FullLength(p.hkdf) && (h.encrypted ==> h.secrets.Some?)
  {
    match reply
    case Refused(error) => Err(error)
    case NotBytes => Err("expected bytes")
    case Data(payload) =>
      if |payload| != e.storedSize then Err("stored size differs")
      else if Decoded(Some(e.payloadHash)) != Ok(p.sha(payload)) then Err("the stored block was altered")
      else
        var plain :- Decrypted(p, h, keys, e.index, payload);
        if |plain| != e.plainSize then Err("plain size differs") else Ok(plain)
  }

  function Decrypted(p: Platform, h: Header, keys: Option<OpenKeys>, index: nat, payload: Bytes): Result<Bytes, string>
    requires FullLength(p.hkdf) && (h.encrypted ==> h.secrets.Some?)
  {
    if !h.encrypted then Ok(payload)
    else if keys.None? then Err("no file key")
    else
      DecryptChunk(p.hkdf, p.ciphers, payload, keys.value.fileKey, keys.value.fileSalt, index,
                   ChunkAad(h.fileHash, index, h.totalChunks), h.secrets.value.suite)
  }

  function Outcomes(p: Platform, h: Header, keys: Option<OpenKeys>, entries: seq<Entry>, fetch: Entry -> Reply)
    : (outcomes: seq<Result<Bytes, string>>)
    requires FullLength(p.hkdf) && (h.encrypted ==> h.secrets.Some?)
    ensures |outcomes| == |entries|
  {
    seq(|entries|, i requires 0 <= i < |entries| => FetchAndVerify(p, h, keys, entries[i], fetch(entries[i])))
  }

  // ----- The sequential stream -----

  datatype Streamed = Streamed(yielded: seq<Bytes>, failure: Option<string>)

  /** The root is compared before the last chunk is handed over; an empty expected root is not compared. */
  function RootFault(sha: Sha, h: Header, expected: string, plains: seq<Bytes>): Option<string>
    requires |plains| > 0
  {
    var rootHex := To0x(ChunksRoot(sha, plains));
    if rootHex != h.merkleRoot then Some("root does not match the manifest")
    else if expected != "" && rootHex != ToLower(expected) then Some("this file is not the registered document")
    else None
  }

  /** The signal is aborted from the moment the consumer has seen that many chunks. */
  predicate Aborted(signalAt: Option<nat>, index: nat) {
    signalAt.Some? && index >= signalAt.value
  }

  /** One chunk after another, with no look-ahead at all. */
  function Deliver(sha: Sha, h: Header, expected: string, outcomes: seq<Result<Bytes, string>>, signalAt: Option<nat>,
                   plains: seq<Bytes>): Streamed
    requires |plains| <= |outcomes|
    decreases |outcomes| - |plains|
  {
    if |plains| == |outcomes| then Streamed(plains, None)
    else if Aborted(signalAt, |plains|) then Streamed(plains, Some("operation aborted"))
    else
      match outcomes[|plains|] {
        case Err(error) => Streamed(plains, Some(error))
        case Ok(plain) =>
          if |plains| + 1 == |outcomes| && RootFault(sha, h, expected, plains + [plain]).Some? then
            Streamed(plains, RootFault(sha, h, expected, plains + [plain]))
          else Deliver(sha, h, expected, outcomes, signalAt, plains + [plain])
      }
  }

  function CheckTable(h: Header, chunks: seq<Entry>): (r: Result<seq<Entry>, string>)
    ensures r.Ok? ==> r.value == Sorted(chunks) && |r.value| == h.totalChunks && GapFree(r.value)
  {
    if |chunks| != h.totalChunks then Err("the header declares another number of entries")
    else if !GapFree(Sorted(chunks)) then Err("chunk table has a gap")
    else Ok(Sorted(chunks))
  }

  function StreamResult(p: Platform, m: Json, o: Opened, fetch: Entry -> Reply, expected: string, limits: Limits,
                        signalAt: Option<nat>): Streamed
    requires FullLength(p.hkdf)
  {
    match ValidateManifestHeader(m, limits)
    case Err(error) => Streamed([], Some(error))
    case Ok(h) =>
      match CheckTable(h, o.body.chunks) {
        case Err(error) => Streamed([], Some(error))
        case Ok(entries) =>
          Deliver(p.sha, h, expected, Outcomes(p, h, o.keys, entries, fetch), signalAt, [])
      }
  }

  // ----- The look-ahead stream -----

  function Upto(n: nat): seq<nat> {
    seq(n, i => i)
  }

  /**
   * The fetches in flight are exactly those of the indices from `from` up to `to`, each with its own outcome, and
   * every fetch up to `to` has been started once, in order.
   */
  ghost predicate Ahead(inFlight: map<nat, Result<Bytes, string>>, outcomes: seq<Result<Bytes, string>>,
                        started: seq<nat>, from: nat, to: int)
  {
    from <= to <= |outcomes| && started == Upto(to)
    && (forall i :: i in inFlight <==> from <= i < to) && forall i :: from <= i < to ==> inFlight[i] == outcomes[i]
  }

  /** Fetch, unless past the end or already in flight. */
  method StartFetch(p: Platform, h: Header, keys: Option<OpenKeys>, entries: seq<Entry>, fetch: Entry -> Reply,
                    index: nat, inFlight: map<nat, Result<Bytes, string>>, ghost from: nat, ghost started: seq<nat>,
                    ghost outcomes: seq<Result<Bytes, string>>)
    returns (after: map<nat, Result<Bytes, string>>, ghost startedAfter: seq<nat>)
    requires FullLength(p.hkdf) && (h.encrypted ==> h.secrets.Some?)
    requires outcomes == Outcomes(p, h, keys, entries, fetch)
    requires Ahead(inFlight, outcomes, started, from, Min(index, |entries|))
    ensures Ahead(after, outcomes, startedAfter, from, Min(index + 1, |entries|))
  {
    if index >= |entries| || index in inFlight {
      return inFlight, started;
    }
    after := inFlight[index := FetchAndVerify(p, h, keys, entries[index], fetch(entries[index]))];
    startedAfter := started + [index];
  }

  /**
   * For every concurrency the look-ahead stream yields and fails exactly as the sequential one, starts each fetch
   * once and in order, and is as many fetches ahead of its consumer as it may be and no more; a manifest or a table
   * that is refused makes it start none.
   */
  method RestoreFileStream(p: Platform, m: Json, o: Opened, fetch: Entry -> Reply, expected: string, concurrency: int,
                           limits: Limits, signalAt: Option<nat>)
    returns (s: Streamed, ghost started: seq<nat>)
    requires FullLength(p.hkdf)
    ensures s == StreamResult(p, m, o, fetch, expected, limits, signalAt)
    ensures started == Upto(|started|)
    ensures started == [] <==>
      var header := ValidateManifestHeader(m, limits);
      header.Err? || CheckTable(header.value, o.body.chunks).Err?
    ensures started != [] && 1 <= concurrency ==> |started| == Min(|s.yielded| + concurrency, |o.body.chunks|)
    ensures started != [] && concurrency < 1 ==> |started| == Min(|s.yielded| + 1, |o.body.chunks|)
  {
    started := [];
    var header := ValidateManifestHeader(m, limits);
    if header.Err? {
      return Streamed([], Some(header.error)), started;
    }
    var h := header.value;
    var table := CheckTable(h, o.body.chunks);
    if table.Err? {
      return Streamed([], Some(table.error)), started;
    }
    s, started := LookAhead(p, h, o.keys, table.value, fetch, expected, Width(concurrency, |table.value|), signalAt,
                            Outcomes(p, h, o.keys, table.value, fetch));
  }

  /** Wait for the chunk due next and, unless it failed, start the fetch one window further on. */
  method AwaitAndRefill(p: Platform, h: Header, keys: Option<OpenKeys>, entries: seq<Entry>, fetch: Entry -> Reply,
                        index: nat, width: nat, inFlight: map<nat, Result<Bytes, string>>, ghost started: seq<nat>,
                        ghost outcomes: seq<Result<Bytes, string>>)
    returns (pending: Result<Bytes, string>, after: map<nat, Result<Bytes, string>>, ghost startedAfter: seq<nat>)
    requires FullLength(p.hkdf) && (h.encrypted ==> h.secrets.Some?)
    requires index < |entries| && 1 <= width && outcomes == Outcomes(p, h, keys, entries, fetch)
    requires Ahead(inFlight, outcomes, started, index, Min(index + width, |entries|))
    ensures pending == outcomes[index]
    ensures pending.Err? ==> startedAfter == Upto(Min(index + width, |entries|))
    ensures pending.Ok? ==> Ahead(after, outcomes, startedAfter, index + 1, Min(index + 1 + width, |entries|))
  {
    pending := inFlight[index];
    AwaitFirst(inFlight, outcomes, started, index, Min(index + width, |entries|));
    after, startedAfter := inFlight - {index}, started;
    if pending.Ok? {
      after, startedAfter := StartFetch(p, h, keys, entries, fetch, index + width, after, index + 1, started, outcomes);
    }
  }

  lemma AwaitFirst(inFlight: map<nat, Result<Bytes, string>>, outcomes: seq<Result<Bytes, string>>,
                   started: seq<nat>, from: nat, to: int)
    requires from < to && Ahead(inFlight, outcomes, started, from, to)
    ensures from in inFlight && inFlight[from] == outcomes[from]
    ensures Ahead(inFlight - {from}, outcomes, started, from + 1, to)
  {
  }

  /**
   * Where the loop stands at an index: as many chunks yielded, and as the sequential stream would have them, and
   * the fetches up to one window further on started.
   */
  ghost predicate Halfway(sha: Sha, h: Header, expected: string, outcomes: seq<Result<Bytes, string>>,
                          signalAt: Option<nat>, width: nat, index: nat, inFlight: map<nat, Result<Bytes, string>>,
                          started: seq<nat>, yielded: seq<Bytes>, leaves: seq<Digest>)
  {
    |yielded| == index && Ahead(inFlight, outcomes, started, index, Min(index + width, |outcomes|))
    && OnCourse(sha, h, expected, outcomes, signalAt, yielded, leaves)
  }

  /** The stream has ended as the sequential one, with the fetches up to one window further on started. */
  ghost predicate Ended(sha: Sha, h: Header, expected: string, outcomes: seq<Result<Bytes, string>>,
                        signalAt: Option<nat>, width: nat, s: Streamed, started: seq<nat>)
  {
    s == Deliver(sha, h, expected, outcomes, signalAt, []) && started == Upto(Min(|s.yielded| + width, |outcomes|))
  }

  lemma EndsAfterLast(sha: Sha, h: Header, expected: string, outcomes: seq<Result<Bytes, string>>,
                      signalAt: Option<nat>, width: nat, inFlight: map<nat, Result<Bytes, string>>,
                      started: seq<nat>, yielded: seq<Bytes>, leaves: seq<Digest>)
    requires Halfway(sha, h, expected, outcomes, signalAt, width, |outcomes|, inFlight, started, yielded, leaves)
    ensures Ended(sha, h, expected, outcomes, signalAt, width, Streamed(yielded, None), started)
  {
  }

  method LookAhead(p: Platform, h: Header, keys: Option<OpenKeys>, entries: seq<Entry>, fetch: Entry -> Reply,
                   expected: string, width: nat, signalAt: Option<nat>, ghost outcomes: seq<Result<Bytes, string>>)
    returns (s: Streamed, ghost started: seq<nat>)
    requires FullLength(p.hkdf) && (h.encrypted ==> h.secrets.Some?)
    requires 1 <= width && |entries| > 0 && outcomes == Outcomes(p, h, keys, entries, fetch)
    ensures s == Deliver(p.sha, h, expected, outcomes, signalAt, [])
    ensures started == Upto(Min(|s.yielded| + width, |entries|))
  {
    var inFlight: map<nat, Result<Bytes, string>>;
    inFlight, started := FillWindow(p, h, keys, entries, fetch, width, outcomes);
    var leaves: seq<Digest> := [];
    var yielded: seq<Bytes> := [];
    for index := 0 to |entries|
      invariant Halfway(p.sha, h, expected, outcomes, signalAt, width, index, inFlight, started, yielded, leaves)
    {
      var ended;
      ended, inFlight, started, yielded, leaves :=
        TakeTurn(p, h, keys, entries, fetch, expected, width, signalAt, index, inFlight, yielded, leaves, started,
                 outcomes);
      if ended.Some? {
        return ended.value, started;
      }
    }
    EndsAfterLast(p.sha, h, expected, outcomes, signalAt, width, inFlight, started, yielded, leaves);
    return Streamed(yielded, None), started;
  }

  /** One turn of the loop: the chunk due next is yielded, or the stream ends with what it has yielded. */
  method TakeTurn(p: Platform, h: Header, keys: Option<OpenKeys>, entries: seq<Entry>, fetch: Entry -> Reply,
                  expected: string, width: nat, signalAt: Option<nat>, index: nat,
                  inFlight: map<nat, Result<Bytes, string>>, yielded: seq<Bytes>, leaves: seq<Digest>,
                  ghost started: seq<nat>, ghost outcomes: seq<Result<Bytes, string>>)
    returns (ended: Option<Streamed>, after: map<nat, Result<Bytes, string>>, ghost startedAfter: seq<nat>,
             more: seq<Bytes>, grown: seq<Digest>)
    requires FullLength(p.hkdf) && (h.encrypted ==> h.secrets.Some?)
    requires 1 <= width && index < |entries| && outcomes == Outcomes(p, h, keys, entries, fetch)
    requires Halfway(p.sha, h, expected, outcomes, signalAt, width, index, inFlight, started, yielded, leaves)
    ensures ended.Some? ==> Ended(p.sha, h, expected, outcomes, signalAt, width, ended.value, startedAfter)
    ensures ended.None? ==>
      Halfway(p.sha, h, expected, outcomes, signalAt, width, index + 1, after, startedAfter, more, grown)
  {
    after, startedAfter, more, grown := inFlight, started, yielded, leaves;
    if Aborted(signalAt, index) {
      return Some(Streamed(yielded, Some("operation aborted"))), after, startedAfter, more, grown;
    }
    var pending;
    pending, after, startedAfter :=
      AwaitAndRefill(p, h, keys, entries, fetch, index, width, inFlight, started, outcomes);
    if pending.Err? {
      return Some(Streamed(yielded, Some(pending.error))), after, startedAfter, more, grown;
    }
    var plain, fault := pending.value, None;
    fault, grown := CheckLast(p.sha, h, expected, index == |entries| - 1, leaves, plain, yielded, outcomes, signalAt);
    if fault.Some? {
      return Some(Streamed(yielded, fault)), after, startedAfter, more, grown;
    }
    return None, after, startedAfter, yielded + [plain], grown;
  }

  method FillWindow(p: Platform, h: Header, keys: Option<OpenKeys>, entries: seq<Entry>, fetch: Entry -> Reply,
                    width: nat, ghost outcomes: seq<Result<Bytes, string>>)
    returns (inFlight: map<nat, Result<Bytes, string>>, ghost started: seq<nat>)
    requires FullLength(p.hkdf) && (h.encrypted ==> h.secrets.Some?)
    requires outcomes == Outcomes(p, h, keys, entries, fetch)
    ensures Ahead(inFlight, outcomes, started, 0, Min(width, |entries|))
  {
    inFlight, started := map[], [];
    for i := 0 to width
      invariant Ahead(inFlight, outcomes, started, 0, Min(i, |entries|))
    {
      inFlight, started := StartFetch(p, h, keys, entries, fetch, i, inFlight, 0, started, outcomes);
    }
  }

  /** The chunks yielded so far, and their hashes, are those the sequential stream would have yielded. */
  ghost predicate OnCourse(sha: Sha, h: Header, expected: string, outcomes: seq<Result<Bytes, string>>,
                           signalAt: Option<nat>, yielded: seq<Bytes>, leaves: seq<Digest>)
  {
    |yielded| <= |outcomes| && leaves == LeafHashes(sha, yielded)
    && Deliver(sha, h, expected, outcomes, signalAt, yielded) == Deliver(sha, h, expected, outcomes, signalAt, [])
  }

  lemma LeafHashesGrow(sha: Sha, chunks: seq<Bytes>, chunk: Bytes)
    ensures LeafHashes(sha, chunks + [chunk]) == LeafHashes(sha, chunks) + [LeafHash(sha, chunk)]
  {
  }

  lemma StaysOnCourse(sha: Sha, h: Header, expected: string, outcomes: seq<Result<Bytes, string>>,
                      signalAt: Option<nat>, yielded: seq<Bytes>, plain: Bytes)
    requires OnCourse(sha, h, expected, outcomes, signalAt, yielded, LeafHashes(sha, yielded))
    requires |yielded| < |outcomes| && !Aborted(signalAt, |yielded|) && outcomes[|yielded|] == Ok(plain)
    requires |yielded| + 1 == |outcomes| ==> RootFault(sha, h, expected, yielded + [plain]).None?
    ensures OnCourse(sha, h, expected, outcomes, signalAt, yielded + [plain],
                     LeafHashes(sha, yielded) + [LeafHash(sha, plain)])
  {
    LeafHashesGrow(sha, yielded, plain);
  }

  /** Hash the chunk; check the root before the last chunk is handed over. */
  method CheckLast(sha: Sha, h: Header, expected: string, last: bool, leaves: seq<Digest>, plain: Bytes,
                   ghost yielded: seq<Bytes>, ghost outcomes: seq<Result<Bytes, string>>,
                   ghost signalAt: Option<nat>)
    returns (fault: Option<string>, grown: seq<Digest>)
    requires OnCourse(sha, h, expected, outcomes, signalAt, yielded, leaves)
    requires |yielded| < |outcomes| && !Aborted(signalAt, |yielded|) && outcomes[|yielded|] == Ok(plain)
    requires last <==> |yielded| + 1 == |outcomes|
    ensures fault.Some? ==> last && Deliver(sha, h, expected, outcomes, signalAt, []) == Streamed(yielded, fault)
    ensures fault.None? ==> OnCourse(sha, h, expected, outcomes, signalAt, yielded + [plain], grown)
  {
    grown := leaves + [LeafHash(sha, plain)];
    fault := None;
    LeafHashesGrow(sha, yielded, plain);
    if last {
      fault := CheckRoot(sha, h, expected, grown, yielded + [plain]);
    }
    if fault.None? {
      StaysOnCourse(sha, h, expected, outcomes, signalAt, yielded, plain);
    }
  }

  method CheckRoot(sha: Sha, h: Header, expected: string, leaves: seq<Digest>, ghost plains: seq<Bytes>)
    returns (fault: Option<string>)
    requires |plains| > 0 && leaves == LeafHashes(sha, plains)
    ensures fault == RootFault(sha, h, expected, plains)
  {
    var root := MerkleRoot(sha, leaves);
    var rootHex := To0x(root.value);
    if rootHex != h.merkleRoot {
      return Some("root does not match the manifest");
    }
    if expected != "" && rootHex != ToLower(expected) {
      return Some("this file is not the registered document");
    }
    return None;
  }

  // ----- The buffered restore -----

  datatype Restored = Restored(bytes: Bytes, fileName: string, mimeType: string, fileHash: string, merkleRoot: string)

  function Reassembled(p: Platform, h: Header, o: Opened, expected: string, s: Streamed): Result<Restored, string> {
    if s.failure.Some? then Err(s.failure.value)
    else if To0x(p.sha(Join(s.yielded))) != h.fileHash then Err("file hash does not match the manifest")
    else if |Join(s.yielded)| != h.fileSize then Err("file size does not match the manifest")
    else
      Ok(Restored(Join(s.yielded), o.body.fileName, o.body.mimeType, h.fileHash,
                  if expected != "" then ToLower(expected) else h.merkleRoot))
  }

  function RestoreResult(p: Platform, m: Json, o: Opened, fetch: Entry -> Reply, expected: string, limits: Limits,
                         signalAt: Option<nat>): Result<Restored, string>
    requires FullLength(p.hkdf)
  {
    var h :- ValidateManifestHeader(m, limits);
    var _ :- AssertWithinBudget(h.fileSize, limits);
    Reassembled(p, h, o, expected, StreamResult(p, m, o, fetch, expected, limits, signalAt))
  }

  method RestoreFile(p: Platform, m: Json, o: Opened, fetch: Entry -> Reply, expected: string, concurrency: int,
                     limits: Limits, signalAt: Option<nat>)
    returns (r: Result<Restored, string>)
    requires FullLength(p.hkdf)
    ensures r == RestoreResult(p, m, o, fetch, expected, limits, signalAt)
  {
    var header := ValidateManifestHeader(m, limits);
    if header.Err? {
      return Err(header.error);
    }
    var h := header.value;
    var budget := AssertWithinBudget(h.fileSize, limits);
    if budget.Err? {
      return Err(budget.error);
    }
    var s, started := RestoreFileStream(p, m, o, fetch, expected, concurrency, limits, signalAt);
    if s.failure.Some? {
      return Err(s.failure.value);
    }
    var bytes := ConcatAll(s.yielded);
    var fileHash := To0x(p.sha(bytes));
    if fileHash != h.fileHash {
      return Err("file hash does not match the manifest");
    }
    if |bytes| != h.fileSize {
      return Err("file size does not match the manifest");
    }
    return Ok(Restored(bytes, o.body.fileName, o.body.mimeType, fileHash,
                       if expected != "" then ToLower(expected) else h.merkleRoot));
  }
}
