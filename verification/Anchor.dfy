/**
 * Batch anchoring: one root over many documents (js/core/anchor.js), and the check that joins a receipt to an
 * anchored batch (js/core/receipt.js and js/storage/proofs.js).
 */
module Anchor {
  import opened Bytes
  import opened Chunker
  import opened Hex
  import opened Json
  import opened MerkleTree
  import opened Numbers
  import opened Text
  import opened Wrappers

  const MAX_BATCH_SIZE := 65536
  const TWO_64: nat := 0x1_0000_0000_0000_0000

  datatype Document = Document(fileHash: Json, merkleRoot: Json, fileSize: Json, manifestCID: Json)

  // ----- The bytes that commit to one document -----

  predicate IsHash(f: Json) {
    f.Str? && IsHex32(f.text)
  }

  predicate IsSize(f: Json) {
    IsInteger(f) && f.value >= 0.0
  }

  predicate Anchorable(d: Document) {
    IsHash(d.fileHash) && IsHash(d.merkleRoot) && IsSize(d.fileSize)
    && d.manifestCID.Str? && d.manifestCID.text != ""
  }

  function AssertAnchorableDocument(d: Option<Document>): (r: Result<Document, string>)
    ensures r.Ok? <==> d.Some? && Anchorable(d.value)
    ensures r.Ok? ==> Some(r.value) == d
  {
    if d.None? then Err("a document must be an object")
    else if !IsHash(d.value.fileHash) then Err("fileHash must be 0x-prefixed 32-byte hex")
    else if !IsHash(d.value.merkleRoot) then Err("merkleRoot must be 0x-prefixed 32-byte hex")
    else if !IsSize(d.value.fileSize) then Err("fileSize must be a non-negative integer")
    else if !d.value.manifestCID.Str? || d.value.manifestCID.text == "" then
      Err("manifestCID must be a non-empty string")
    else Ok(d.value)
  }

  function Size(d: Document): nat
    requires Anchorable(d)
  {
    d.fileSize.value.Floor
  }

  function BigEndian(n: nat, width: nat): (bytes: Bytes)
    ensures |bytes| == width
  {
    if width == 0 then [] else BigEndian(n / 256, width - 1) + [(n % 256) as byte]
  }

  /** setBigUint64 keeps the low 64 bits. */
  function Uint64(n: nat): Bytes {
    BigEndian(n % TWO_64, 8)
  }

  function HashBytes(f: Json): Digest
    requires IsHash(f)
  {
    To0xUndoesDecoded(f.text);
    Decoded(Some(f.text)).value
  }

  function Preimage(d: Document): Bytes
    requires Anchorable(d)
  {
    HashBytes(d.fileHash) + HashBytes(d.merkleRoot) + Uint64(Size(d)) + Utf8(d.manifestCID.text)
  }

  function DocumentPreimage(d: Option<Document>): (r: Result<Bytes, string>)
    ensures r.Ok? <==> d.Some? && Anchorable(d.value)
    ensures r.Ok? ==> r.value == Preimage(d.value)
  {
    var document :- AssertAnchorableDocument(d);
    Ok(Preimage(document))
  }

  function DocumentLeaf(sha: Sha, d: Option<Document>): (r: Result<Digest, string>)
    ensures r.Ok? <==> d.Some? && Anchorable(d.value)
    ensures r.Ok? ==> r.value == LeafHash(sha, Preimage(d.value))
  {
    var preimage :- DocumentPreimage(d);
    Ok(LeafHash(sha, preimage))
  }

  /** The two documents say the same, the size only as far as 64 bits show it. */
  predicate SameCommitment(d: Document, e: Document)
    requires Anchorable(d) && Anchorable(e)
  {
    d.fileHash == e.fileHash && d.merkleRoot == e.merkleRoot && d.manifestCID == e.manifestCID
    && Size(d) % TWO_64 == Size(e) % TWO_64
  }

  function Pow256(k: nat): nat {
    if k == 0 then 1 else 256 * Pow256(k - 1)
  }

  function BigEndianValue(bytes: Bytes): nat {
    if bytes == [] then 0 else 256 * BigEndianValue(bytes[..|bytes| - 1]) + bytes[|bytes| - 1] as nat
  }

  lemma {:induction false} BigEndianIsReadBack(n: nat, width: nat)
    requires n < Pow256(width)
    ensures BigEndianValue(BigEndian(n, width)) == n
  {
    if width > 0 {
      BigEndianIsReadBack(n / 256, width - 1);
      assert BigEndian(n, width)[..width - 1] == BigEndian(n / 256, width - 1);
    }
  }

  lemma SizeIsReadBack(n: nat)
    ensures |Uint64(n)| == 8 && BigEndianValue(Uint64(n)) == n % TWO_64
  {
    assert Pow256(4) == 0x1_0000_0000;
    assert Pow256(8) == TWO_64;
    BigEndianIsReadBack(n % TWO_64, 8);
  }

  /** Where each field stands: 32 bytes of file hash, 32 of root, the size as a big-endian uint64, then the CID. */
  lemma PreimageLayout(d: Document)
    requires Anchorable(d)
    ensures var x := Preimage(d);
      |x| >= 72 && To0x(x[..32]) == d.fileHash.text && To0x(x[32..64]) == d.merkleRoot.text
      && BigEndianValue(x[64..72]) == Size(d) % TWO_64 && x[72..] == Utf8(d.manifestCID.text)
  {
    var x := Preimage(d);
    SizeIsReadBack(Size(d));
    assert x[..32] == HashBytes(d.fileHash) && x[32..64] == HashBytes(d.merkleRoot);
    assert x[64..72] == Uint64(Size(d)) && x[72..] == Utf8(d.manifestCID.text);
    To0xUndoesDecoded(d.fileHash.text);
    To0xUndoesDecoded(d.merkleRoot.text);
  }

  /**
   * The preimage determines the document up to 2^64 in the size, and nothing else: no two field lists run together.
   */
  lemma PreimageBindsDocument(d: Document, e: Document)
    requires Anchorable(d) && Anchorable(e)
    ensures Preimage(d) == Preimage(e) <==> SameCommitment(d, e)
  {
    if Preimage(d) == Preimage(e) {
      PreimageLayout(d);
      PreimageLayout(e);
      Utf8IsInjective(d.manifestCID.text, e.manifestCID.text);
    }
  }

  /** An empty file and one of 2^64 bytes are committed alike: the check before asks for a whole number, not 64 bits. */
  lemma SizesWrap(fileHash: string, merkleRoot: string, manifestCID: string)
    requires IsHex32(fileHash) && IsHex32(merkleRoot) && manifestCID != ""
    ensures var d := Document(Str(fileHash), Str(merkleRoot), Num(0.0), Str(manifestCID));
      var e := d.(fileSize := Num(0x1_0000_0000_0000_0000 as real));
      Anchorable(d) && Anchorable(e) && Preimage(e) == Preimage(d)
  {
    var d := Document(Str(fileHash), Str(merkleRoot), Num(0.0), Str(manifestCID));
    PreimageBindsDocument(d, d.(fileSize := Num(TWO_64 as real)));
  }

  /** What can be anchored, in full. */
  lemma AnchorableExactly(d: Document)
    ensures Anchorable(d) <==>
      d.fileHash.Str? && IsHex32(d.fileHash.text) && d.merkleRoot.Str? && IsHex32(d.merkleRoot.text)
      && d.fileSize.Num? && d.fileSize.value >= 0.0 && d.fileSize.value.Floor as real == d.fileSize.value
      && d.manifestCID.Str? && d.manifestCID.text != ""
  {
  }

  // ----- Building a batch -----

  datatype Batch = Batch(root: string, size: nat, leaves: seq<Digest>, documents: seq<Document>)

  /** What a batch may hold: between 1 and 65536 documents, each anchorable, no file twice. */
  predicate Buildable(documents: seq<Document>) {
    0 < |documents| <= MAX_BATCH_SIZE
    && (forall i :: 0 <= i < |documents| ==> Anchorable(documents[i]))
    && DistinctFiles(documents)
  }

  predicate DistinctFiles(documents: seq<Document>) {
    forall i, j :: 0 <= i < j < |documents| ==> documents[i].fileHash != documents[j].fileHash
  }

  function Preimages(documents: seq<Document>): (chunks: seq<Bytes>)
    requires forall i :: 0 <= i < |documents| ==> Anchorable(documents[i])
    ensures |chunks| == |documents|
  {
    seq(|documents|, i requires 0 <= i < |documents| => Preimage(documents[i]))
  }

  function BatchOf(sha: Sha, documents: seq<Document>): Batch
    requires Buildable(documents)
  {
    Batch(To0x(ChunksRoot(sha, Preimages(documents))), |documents|, LeafHashes(sha, Preimages(documents)), documents)
  }

  predicate SeenExactly(seen: set<Json>, documents: seq<Document>) {
    (forall k :: 0 <= k < |documents| ==> documents[k].fileHash in seen)
    && forall f :: f in seen ==> HasFile(documents, f)
  }

  predicate HasFile(documents: seq<Document>, f: Json) {
    exists k :: 0 <= k < |documents| && documents[k].fileHash == f
  }

  predicate LeavesOfAll(sha: Sha, leaves: seq<Digest>, documents: seq<Document>) {
    |leaves| == |documents|
    && forall k :: 0 <= k < |documents| ==>
      Anchorable(documents[k]) && leaves[k] == LeafHash(sha, Preimage(documents[k]))
  }

  lemma SeeNext(seen: set<Json>, documents: seq<Document>, next: Document)
    requires SeenExactly(seen, documents) && DistinctFiles(documents)
    ensures next.fileHash in seen <==> HasFile(documents, next.fileHash)
    ensures next.fileHash !in seen ==>
      SeenExactly(seen + {next.fileHash}, documents + [next]) && DistinctFiles(documents + [next])
  {
    if next.fileHash !in seen {
      forall f | f in seen + {next.fileHash} ensures HasFile(documents + [next], f) {
        if f == next.fileHash {
          assert (documents + [next])[|documents|].fileHash == f;
        } else {
          var k :| 0 <= k < |documents| && documents[k].fileHash == f;
          assert (documents + [next])[k].fileHash == f;
        }
      }
    }
  }

  lemma RepeatIsNotDistinct(documents: seq<Document>, i: nat)
    requires i < |documents| && HasFile(documents[..i], documents[i].fileHash)
    ensures !DistinctFiles(documents)
  {
    var k :| 0 <= k < i && documents[..i][k].fileHash == documents[i].fileHash;
    assert documents[k].fileHash == documents[i].fileHash;
  }

  lemma HashNext(sha: Sha, leaves: seq<Digest>, documents: seq<Document>, next: Document)
    requires LeavesOfAll(sha, leaves, documents) && Anchorable(next)
    ensures LeavesOfAll(sha, leaves + [LeafHash(sha, Preimage(next))], documents + [next])
  {
  }

  lemma LeavesAreHashes(sha: Sha, leaves: seq<Digest>, documents: seq<Document>)
    requires LeavesOfAll(sha, leaves, documents)
    ensures (forall k :: 0 <= k < |documents| ==> Anchorable(documents[k]))
         && leaves == LeafHashes(sha, Preimages(documents))
  {
  }

  /** The files seen and the leaves hashed are those of the first documents, which are distinct and anchorable. */
  ghost predicate Gathered(sha: Sha, seen: set<Json>, leaves: seq<Digest>, documents: seq<Document>, n: nat)
    requires n <= |documents|
  {
    SeenExactly(seen, documents[..n]) && DistinctFiles(documents[..n]) && LeavesOfAll(sha, leaves, documents[..n])
  }

  lemma GatherNext(sha: Sha, seen: set<Json>, leaves: seq<Digest>, documents: seq<Document>, i: nat)
    requires i < |documents| && Gathered(sha, seen, leaves, documents, i)
    ensures documents[i].fileHash in seen ==> !DistinctFiles(documents)
    ensures documents[i].fileHash !in seen && Anchorable(documents[i]) ==>
      Gathered(sha, seen + {documents[i].fileHash}, leaves + [LeafHash(sha, Preimage(documents[i]))], documents, i + 1)
  {
    assert documents[..i + 1] == documents[..i] + [documents[i]];
    SeeNext(seen, documents[..i], documents[i]);
    if documents[i].fileHash in seen {
      RepeatIsNotDistinct(documents, i);
    } else if Anchorable(documents[i]) {
      HashNext(sha, leaves, documents[..i], documents[i]);
    }
  }

  lemma AllGathered(sha: Sha, seen: set<Json>, leaves: seq<Digest>, documents: seq<Document>)
    requires Gathered(sha, seen, leaves, documents, |documents|)
    ensures DistinctFiles(documents) && forall k :: 0 <= k < |documents| ==> Anchorable(documents[k])
    ensures leaves == LeafHashes(sha, Preimages(documents))
  {
    assert documents[..|documents|] == documents;
    LeavesAreHashes(sha, leaves, documents);
  }

  method BuildBatch(sha: Sha, documents: seq<Document>) returns (r: Result<Batch, string>)
    ensures r.Ok? <==> Buildable(documents)
    ensures r.Ok? ==> r.value == BatchOf(sha, documents)
  {
    if |documents| == 0 {
      return Err("a batch needs at least one document");
    }
    if |documents| > MAX_BATCH_SIZE {
      return Err("too many documents");
    }
    var seen: set<Json> := {};
    var leaves: seq<Digest> := [];
    for i := 0 to |documents|
      invariant Gathered(sha, seen, leaves, documents, i)
    {
      GatherNext(sha, seen, leaves, documents, i);
      if documents[i].fileHash in seen {
        return Err("a document appears twice in the batch");
      }
      seen := seen + {documents[i].fileHash};
      var leaf := DocumentLeaf(sha, Some(documents[i]));
      if leaf.Err? {
        return Err(leaf.error);
      }
      leaves := leaves + [leaf.value];
    }
    AllGathered(sha, seen, leaves, documents);
    var root := MerkleRoot(sha, leaves);
    return Ok(Batch(To0x(root.value), |documents|, leaves, documents));
  }

  // ----- Proving membership -----

  /** One step of a proof as JSON carries it; `None` where the hash is not a string. */
  datatype HexStep = HexStep(hash: Option<string>, side: string)

  datatype Inclusion = Inclusion(fileHash: Json, batchRoot: string, index: int, document: Option<Document>,
                                 proof: Option<seq<HexStep>>)

  function Printed(path: seq<Step>): (proof: seq<HexStep>)
    ensures |proof| == |path|
  {
    seq(|path|, i requires 0 <= i < |path| =>
      HexStep(Some(To0x(path[i].hash)), if path[i].side == Right then "right" else "left"))
  }

  function InclusionOf(sha: Sha, batch: Batch, index: nat): Inclusion
    requires index < |batch.leaves| && index < |batch.documents|
  {
    Inclusion(batch.documents[index].fileHash, batch.root, index, Some(batch.documents[index]),
              Some(Printed(Path(sha, batch.leaves, index))))
  }

  /** A batch whose leaves and documents line up. */
  predicate Aligned(batch: Batch) {
    |batch.leaves| == |batch.documents| > 0
  }

  predicate IsFirstFor(batch: Batch, fileHash: Json, i: int) {
    0 <= i < |batch.documents| && batch.documents[i].fileHash == fileHash
    && forall k :: 0 <= k < i ==> batch.documents[k].fileHash != fileHash
  }

  method ProveInBatch(sha: Sha, batch: Batch, fileHash: Json) returns (r: Result<Inclusion, string>)
    requires Aligned(batch)
    ensures r.Ok? <==> exists i :: 0 <= i < |batch.documents| && batch.documents[i].fileHash == fileHash
    ensures r.Ok? ==> exists i :: IsFirstFor(batch, fileHash, i) && r.value == InclusionOf(sha, batch, i)
  {
    var index := 0;
    while index < |batch.documents| && batch.documents[index].fileHash != fileHash
      invariant 0 <= index <= |batch.documents|
      invariant forall k :: 0 <= k < index ==> batch.documents[k].fileHash != fileHash
    {
      index := index + 1;
    }
    if index == |batch.documents| {
      return Err("document is not in this batch");
    }
    assert IsFirstFor(batch, fileHash, index);
    var proof := MerkleProof(sha, batch.leaves, index);
    return Ok(Inclusion(fileHash, batch.root, index, Some(batch.documents[index]), Some(Printed(proof.value))));
  }

  /** The first `n` documents, and no other, have their proofs. */
  ghost predicate Proven(sha: Sha, batch: Batch, proofs: map<Json, Inclusion>, n: nat)
    requires Aligned(batch) && n <= |batch.documents|
  {
    (forall i :: 0 <= i < n ==>
       batch.documents[i].fileHash in proofs && proofs[batch.documents[i].fileHash] == InclusionOf(sha, batch, i))
    && forall f :: f in proofs ==> exists i :: 0 <= i < n && batch.documents[i].fileHash == f
  }

  lemma ProveNext(sha: Sha, batch: Batch, proofs: map<Json, Inclusion>, n: nat, f: Json, inclusion: Inclusion)
    requires Aligned(batch) && n < |batch.documents| && DistinctFiles(batch.documents)
    requires Proven(sha, batch, proofs, n)
    requires f == batch.documents[n].fileHash && inclusion == InclusionOf(sha, batch, n)
    ensures Proven(sha, batch, proofs[f := inclusion], n + 1)
  {
    var more := proofs[f := inclusion];
    forall i | 0 <= i < n + 1
      ensures batch.documents[i].fileHash in more && more[batch.documents[i].fileHash] == InclusionOf(sha, batch, i)
    {
      assert i < n ==> batch.documents[i].fileHash != f;
    }
    forall g | g in more ensures exists i :: 0 <= i < n + 1 && batch.documents[i].fileHash == g {
      assert g == f ==> batch.documents[n].fileHash == g;
    }
  }

  /** One tree for the whole batch gives every document the proof a tree of its own would have given it. */
  method ProveWholeBatch(sha: Sha, batch: Batch) returns (proofs: map<Json, Inclusion>)
    requires Aligned(batch) && DistinctFiles(batch.documents)
    ensures Proven(sha, batch, proofs, |batch.documents|)
  {
    var built := BuildMerkleTree(sha, batch.leaves);
    var levels := built.value;
    proofs := map[];
    for index := 0 to |batch.documents|
      invariant Proven(sha, batch, proofs, index)
    {
      var inclusion := ProveAt(sha, batch, levels, index);
      ProveNext(sha, batch, proofs, index, inclusion.fileHash, inclusion);
      proofs := proofs[inclusion.fileHash := inclusion];
    }
  }

  method ProveAt(sha: Sha, batch: Batch, levels: seq<seq<Digest>>, index: nat) returns (inclusion: Inclusion)
    requires Aligned(batch) && index < |batch.documents| && levels == Levels(sha, batch.leaves)
    ensures inclusion == InclusionOf(sha, batch, index)
  {
    var path := MerkleProofFromLevels(levels, index);
    PathReadsLevels(sha, batch.leaves, index);
    var document := batch.documents[index];
    inclusion := Inclusion(document.fileHash, batch.root, index, Some(document), Some(Printed(path.value)));
  }

  // ----- Verifying membership -----

  datatype Check = Valid(fileHash: Json, batchRoot: string) | Invalid(reason: string)

  predicate Readable(proof: seq<HexStep>) {
    forall i :: 0 <= i < |proof| ==> Decoded(proof[i].hash).Ok?
  }

  function Read(proof: seq<HexStep>): (steps: seq<RawStep>)
    requires Readable(proof)
    ensures |steps| == |proof|
  {
    seq(|proof|, i requires 0 <= i < |proof| => RawStep(Some(Decoded(proof[i].hash).value), proof[i].side))
  }

  /** An absent or empty root from the chain falls back to the one the proof carries. */
  function RootToMatch(inclusion: Inclusion, onChainRoot: string): string {
    ToLower(if onChainRoot != "" then onChainRoot else inclusion.batchRoot)
  }

  function VerifyInBatch(sha: Sha, inclusion: Option<Inclusion>, onChainRoot: string): Check {
    if inclusion.None? then Invalid("inclusion proof must be an object")
    else
      var proof := inclusion.value;
      var root := RootToMatch(proof, onChainRoot);
      if !IsHex32(root) then Invalid("batch root must be 0x-prefixed 32-byte hex")
      else if proof.proof.None? then Invalid("inclusion proof is missing its path")
      else
        match DocumentLeaf(sha, proof.document) {
          case Err(reason) => Invalid(reason)
          case Ok(leaf) =>
            if !Readable(proof.proof.value) then Invalid("invalid hex string")
            else
              To0xUndoesDecoded(root);
              match Verified(sha, leaf, Some(Read(proof.proof.value)), Decoded(Some(root)).value) {
                case Err(_) => Invalid("malformed proof")
                case Ok(reaches) =>
                  if !reaches then Invalid("inclusion proof does not reach the batch root")
                  else if proof.document.value.fileHash != proof.fileHash then
                    Invalid("proof names a different document than it carries")
                  else Valid(proof.fileHash, root)
              }
        }
  }

  // ----- Receipt and anchor together -----

  /** The parts of a receipt's statement that the anchor also states. */
  datatype Statement = Statement(fileHash: Json, merkleRoot: Json, manifestCID: Json)

  function ReceiptMatchesAnchor(statement: Statement, document: Document): Result<(), string> {
    if statement.fileHash != document.fileHash then Err("fileHash differs between receipt and anchor")
    else if statement.merkleRoot != document.merkleRoot then Err("merkleRoot differs between receipt and anchor")
    else if statement.manifestCID != document.manifestCID then Err("manifestCID differs between receipt and anchor")
    else Ok(())
  }

  datatype AnchorVerdict =
    | Anchored(fileHash: Json, batchRoot: string)
    | NotAnchored(disputed: bool, reason: string)

  function CheckAnchor(sha: Sha, statement: Statement, inclusion: Option<Inclusion>, onChainRoot: string)
    : AnchorVerdict
  {
    if inclusion.None? then NotAnchored(false, "no inclusion proof yet")
    else
      match VerifyInBatch(sha, inclusion, onChainRoot) {
        case Invalid(reason) => NotAnchored(false, reason)
        case Valid(fileHash, root) =>
          if inclusion.value.document.None? then NotAnchored(false, "")
          else
            match ReceiptMatchesAnchor(statement, inclusion.value.document.value) {
              case Err(reason) => NotAnchored(true, reason)
              case Ok(_) => Anchored(fileHash, root)
            }
      }
  }

  /** What a receipt for a document states. */
  function StatementFor(d: Document): Statement {
    Statement(d.fileHash, d.merkleRoot, d.manifestCID)
  }

  /**
   * The verdict on any receipt and any proof: with a valid proof, anchored if the receipt states what the proof's
   * document does and disputed if it states anything else; without one, neither.
   */
  lemma VerdictIsExact(sha: Sha, statement: Statement, inclusion: Option<Inclusion>, onChainRoot: string)
    ensures var verdict := CheckAnchor(sha, statement, inclusion, onChainRoot);
      var valid := inclusion.Some? && VerifyInBatch(sha, inclusion, onChainRoot).Valid?;
      (valid ==> inclusion.value.document.Some?)
      && (verdict.Anchored? <==> valid && StatementFor(inclusion.value.document.value) == statement)
      && (verdict.NotAnchored? && verdict.disputed <==>
          valid && StatementFor(inclusion.value.document.value) != statement)
    ensures var verdict := CheckAnchor(sha, statement, inclusion, onChainRoot);
      verdict.Anchored? ==>
        verdict.fileHash == statement.fileHash && verdict.batchRoot == RootToMatch(inclusion.value, onChainRoot)
  {
    if inclusion.Some? {
      ValidMeans(sha, inclusion.value, onChainRoot);
    }
  }

  /** The document an accepted proof carries, the path it gives, and what they satisfy. */
  lemma ValidMeans(sha: Sha, inclusion: Inclusion, onChainRoot: string)
    ensures VerifyInBatch(sha, Some(inclusion), onChainRoot).Valid? <==>
      IsHex32(RootToMatch(inclusion, onChainRoot))
      && inclusion.proof.Some? && Readable(inclusion.proof.value)
      && |inclusion.proof.value| <= MAX_PROOF_STEPS
      && WellFormed(Read(inclusion.proof.value))
      && inclusion.document.Some? && Anchorable(inclusion.document.value)
      && inclusion.document.value.fileHash == inclusion.fileHash
      && To0x(Fold(sha, LeafHash(sha, Preimage(inclusion.document.value)), ParsedPath(Read(inclusion.proof.value))))
      == RootToMatch(inclusion, onChainRoot)
  {
    var root := RootToMatch(inclusion, onChainRoot);
    if IsHex32(root) {
      To0xUndoesDecoded(root);
      if inclusion.proof.Some? && Readable(inclusion.proof.value) && WellFormed(Read(inclusion.proof.value))
        && inclusion.document.Some? && Anchorable(inclusion.document.value) {
        DecodedUndoesTo0x(Fold(sha, LeafHash(sha, Preimage(inclusion.document.value)),
                               ParsedPath(Read(inclusion.proof.value))));
      }
    }
  }

  /**
   * An `anchored` verdict against the batch's own root means some document of the batch is the one the receipt
   * describes, with the proof's size modulo 2^64; otherwise batch and verifier hashed a collision.
   */
  lemma AnchoredMeansInBatch(sha: Sha, documents: seq<Document>, statement: Statement, inclusion: Inclusion,
                             onChainRoot: string)
    returns (i: nat)
    requires Buildable(documents)
    requires onChainRoot != "" && ToLower(onChainRoot) == BatchOf(sha, documents).root
    requires CheckAnchor(sha, statement, Some(inclusion), onChainRoot).Anchored?
    ensures inclusion.proof.Some? && Readable(inclusion.proof.value) && WellFormed(Read(inclusion.proof.value))
    ensures inclusion.document.Some? && Anchorable(inclusion.document.value)
    ensures Clash(sha, Committed(sha, Preimages(documents)),
                  ProofInputs(sha, Preimage(inclusion.document.value), ParsedPath(Read(inclusion.proof.value))))
      || (i < |documents|
          && documents[i].fileHash == statement.fileHash
          && documents[i].merkleRoot == statement.merkleRoot
          && documents[i].manifestCID == statement.manifestCID
          && Size(documents[i]) % TWO_64 == Size(inclusion.document.value) % TWO_64
          && ParsedPath(Read(inclusion.proof.value)) == Path(sha, BatchOf(sha, documents).leaves, i))
  {
    ValidMeans(sha, inclusion, onChainRoot);
    var document, path := inclusion.document.value, ParsedPath(Read(inclusion.proof.value));
    To0xIsInjective(Fold(sha, LeafHash(sha, Preimage(document)), path), ChunksRoot(sha, Preimages(documents)));
    i := AcceptedPathIsHonest(sha, Preimages(documents), Preimage(document), path);
    if i < |documents| {
      PreimageBindsDocument(documents[i], document);
    }
  }

  /**
   * A dispute is evidence: the batch anchored exactly the document the proof carries, and the receipt states another
   * file, root or manifest for it; otherwise batch and verifier hashed a collision.
   */
  lemma DisputeIsEvidence(sha: Sha, documents: seq<Document>, statement: Statement, inclusion: Inclusion,
                          onChainRoot: string, reason: string)
    returns (i: nat)
    requires Buildable(documents)
    requires onChainRoot != "" && ToLower(onChainRoot) == BatchOf(sha, documents).root
    requires CheckAnchor(sha, statement, Some(inclusion), onChainRoot) == NotAnchored(true, reason)
    ensures inclusion.proof.Some? && Readable(inclusion.proof.value) && WellFormed(Read(inclusion.proof.value))
    ensures inclusion.document.Some? && Anchorable(inclusion.document.value)
    ensures Clash(sha, Committed(sha, Preimages(documents)),
                  ProofInputs(sha, Preimage(inclusion.document.value), ParsedPath(Read(inclusion.proof.value))))
      || (i < |documents| && SameCommitment(documents[i], inclusion.document.value)
          && (documents[i].fileHash != statement.fileHash || documents[i].merkleRoot != statement.merkleRoot
              || documents[i].manifestCID != statement.manifestCID))
  {
    ValidMeans(sha, inclusion, onChainRoot);
    var document := inclusion.document.value;
    i := AnchoredMeansInBatch(sha, documents, StatementFor(document), inclusion, onChainRoot);
  }

  lemma PrintedIsReadBack(path: seq<Step>)
    ensures Readable(Printed(path)) && WellFormed(Read(Printed(path))) && ParsedPath(Read(Printed(path))) == path
  {
    forall i | 0 <= i < |path|
      ensures Decoded(Printed(path)[i].hash) == Ok(path[i].hash)
    {
      DecodedUndoesTo0x(path[i].hash);
    }
    forall i | 0 <= i < |path|
      ensures Fault(Read(Printed(path))[i]).None? && Parsed(Read(Printed(path))[i]) == path[i]
    {
      assert "left" != "right";
    }
  }

  lemma BatchSizeIsPow2()
    ensures Pow2(16) == MAX_BATCH_SIZE
  {
    assert Pow2(4) == 16;
    assert Pow2(8) == 256;
    assert Pow2(12) == 4096;
  }

  lemma HonestProofIsValid(sha: Sha, documents: seq<Document>, i: nat)
    requires Buildable(documents) && i < |documents|
    ensures var batch := BatchOf(sha, documents);
      VerifyInBatch(sha, Some(InclusionOf(sha, batch, i)), batch.root).Valid?
  {
    var chunks := Preimages(documents);
    var batch := BatchOf(sha, documents);
    var path := Path(sha, batch.leaves, i);
    DecodedUndoesTo0x(ChunksRoot(sha, chunks));
    ToLowerKeepsHex32(batch.root);
    HonestPathReachesRoot(sha, chunks, i);
    BatchSizeIsPow2();
    PathIsShort(sha, batch.leaves, i, 16);
    PrintedIsReadBack(path);
    ValidMeans(sha, InclusionOf(sha, batch, i), batch.root);
  }

  /** An honest proof is accepted for the receipt that matches its document, and disputes every other receipt. */
  lemma HonestProofIsAnchored(sha: Sha, documents: seq<Document>, i: nat, statement: Statement)
    requires Buildable(documents) && i < |documents|
    ensures var batch := BatchOf(sha, documents);
      var verdict := CheckAnchor(sha, statement, Some(InclusionOf(sha, batch, i)), batch.root);
      if statement == StatementFor(documents[i]) then verdict == Anchored(documents[i].fileHash, batch.root)
      else verdict.NotAnchored? && verdict.disputed
  {
    var batch := BatchOf(sha, documents);
    HonestProofIsValid(sha, documents, i);
    VerdictIsExact(sha, statement, Some(InclusionOf(sha, batch, i)), batch.root);
    DecodedUndoesTo0x(ChunksRoot(sha, Preimages(documents)));
    ToLowerKeepsHex32(batch.root);
  }

  // ----- What the root given from the chain decides -----

  ghost predicate InBatch(documents: seq<Document>, d: Document)
    requires Buildable(documents) && Anchorable(d)
  {
    exists i :: 0 <= i < |documents| && SameCommitment(documents[i], d)
  }

  /** All that a verifier hashes for a proof, if it gets to hash anything. */
  function Inputs(sha: Sha, inclusion: Inclusion): set<Bytes> {
    if inclusion.document.Some? && Anchorable(inclusion.document.value)
      && inclusion.proof.Some? && Readable(inclusion.proof.value) && WellFormed(Read(inclusion.proof.value))
    then ProofInputs(sha, Preimage(inclusion.document.value), ParsedPath(Read(inclusion.proof.value)))
    else {}
  }

  ghost predicate IsAnchored(sha: Sha, statement: Statement, inclusion: Inclusion, onChainRoot: string) {
    CheckAnchor(sha, statement, Some(inclusion), onChainRoot).Anchored?
  }

  /** A proof's document is the receipt's and is in the batch, or this proof and the batch hash a collision. */
  ghost predicate SpeaksOf(sha: Sha, documents: seq<Document>, statement: Statement, inclusion: Inclusion)
    requires Buildable(documents)
  {
    inclusion.document.Some? && Anchorable(inclusion.document.value)
    && StatementFor(inclusion.document.value) == statement
    && (InBatch(documents, inclusion.document.value)
        || Clash(sha, Committed(sha, Preimages(documents)), Inputs(sha, inclusion)))
  }

  /** The verdict speaks of this batch, for every receipt and every proof. */
  ghost predicate VerdictBinds(sha: Sha, documents: seq<Document>, onChainRoot: string)
    requires Buildable(documents)
  {
    forall statement, inclusion :: IsAnchored(sha, statement, inclusion, onChainRoot) ==>
      SpeaksOf(sha, documents, statement, inclusion)
  }

  lemma AnchoredSpeaksOf(sha: Sha, documents: seq<Document>, statement: Statement, inclusion: Inclusion,
                         onChainRoot: string)
    requires Buildable(documents)
    requires onChainRoot != "" && ToLower(onChainRoot) == BatchOf(sha, documents).root
    requires IsAnchored(sha, statement, inclusion, onChainRoot)
    ensures SpeaksOf(sha, documents, statement, inclusion)
  {
    ValidMeans(sha, inclusion, onChainRoot);
    var i := AnchoredMeansInBatch(sha, documents, statement, inclusion, onChainRoot);
    if !Clash(sha, Committed(sha, Preimages(documents)), Inputs(sha, inclusion)) {
      assert SameCommitment(documents[i], inclusion.document.value);
    }
  }

  /** The proof of a document by a batch made up for it alone; all a verifier hashes for it is the document's leaf. */
  function SelfMade(sha: Sha, d: Document): Inclusion
    requires Anchorable(d)
  {
    InclusionOf(sha, BatchOf(sha, [d]), 0)
  }

  /** Without a root from the chain any document at all is anchored, by a batch made up for it alone. */
  lemma NoRootAnchorsAnything(sha: Sha, d: Document)
    requires Anchorable(d)
    ensures SelfMade(sha, d).document == Some(d) && IsAnchored(sha, StatementFor(d), SelfMade(sha, d), "")
    ensures Inputs(sha, SelfMade(sha, d)) <= {LeafInput(Preimage(d))}
  {
    var batch := BatchOf(sha, [d]);
    HonestProofIsAnchored(sha, [d], 0, StatementFor(d));
    ValidMeans(sha, SelfMade(sha, d), batch.root);
    ValidMeans(sha, SelfMade(sha, d), "");
    PrintedIsReadBack(Path(sha, batch.leaves, 0));
  }

  /**
   * The verdict binds exactly if a root is given.  Any one document outside the batch, whose leaf does not collide with
   * the batch, shows that it takes one: without a root it is anchored.
   */
  lemma VerdictBindsExactly(sha: Sha, documents: seq<Document>, onChainRoot: string, outsider: Document)
    requires Buildable(documents) && Anchorable(outsider) && !InBatch(documents, outsider)
    requires !Clash(sha, Committed(sha, Preimages(documents)), {LeafInput(Preimage(outsider))})
    requires onChainRoot == "" || ToLower(onChainRoot) == BatchOf(sha, documents).root
    ensures VerdictBinds(sha, documents, onChainRoot) <==> onChainRoot != ""
  {
    if onChainRoot == "" {
      NoRootAnchorsAnything(sha, outsider);
      assert !SpeaksOf(sha, documents, StatementFor(outsider), SelfMade(sha, outsider));
    } else {
      forall statement, inclusion | IsAnchored(sha, statement, inclusion, onChainRoot)
        ensures SpeaksOf(sha, documents, statement, inclusion)
      {
        AnchoredSpeaksOf(sha, documents, statement, inclusion, onChainRoot);
      }
    }
  }

  /** Some proof of the document is anchored without any collision between what it and the batch make one hash. */
  ghost predicate CleanlyAnchored(sha: Sha, documents: seq<Document>, d: Document, onChainRoot: string)
    requires Buildable(documents)
  {
    exists inclusion: Inclusion :: inclusion.document == Some(d)
      && IsAnchored(sha, StatementFor(d), inclusion, onChainRoot)
      && !Clash(sha, Committed(sha, Preimages(documents)), Inputs(sha, inclusion))
  }

  /** The honest proof, carrying a document that is committed alike. */
  lemma BatchedIsAnchored(sha: Sha, documents: seq<Document>, d: Document, i: nat, onChainRoot: string)
    returns (inclusion: Inclusion)
    requires Buildable(documents) && Anchorable(d) && i < |documents| && SameCommitment(documents[i], d)
    requires onChainRoot != "" && ToLower(onChainRoot) == BatchOf(sha, documents).root
    ensures inclusion.document == Some(d) && IsAnchored(sha, StatementFor(d), inclusion, onChainRoot)
    ensures Inputs(sha, inclusion) <= Committed(sha, Preimages(documents))
  {
    var batch := BatchOf(sha, documents);
    var honest := InclusionOf(sha, batch, i);
    inclusion := honest.(document := Some(d));
    HonestProofIsValid(sha, documents, i);
    ValidMeans(sha, honest, batch.root);
    PreimageBindsDocument(documents[i], d);
    DecodedUndoesTo0x(ChunksRoot(sha, Preimages(documents)));
    ToLowerKeepsHex32(batch.root);
    ValidMeans(sha, inclusion, onChainRoot);
    PrintedIsReadBack(Path(sha, batch.leaves, i));
    HonestInputsAreCommitted(sha, Preimages(documents), i);
  }

  /**
   * Exactly which documents get anchored, in a batch with no collision in its own finitely many strings and the one
   * leaf: with its root given, those of the batch, and without one any document whatever.
   */
  lemma AnchoredExactly(sha: Sha, documents: seq<Document>, d: Document, onChainRoot: string)
    requires Buildable(documents) && Anchorable(d)
    requires !Clash(sha, Committed(sha, Preimages(documents)), Committed(sha, Preimages(documents)))
    requires !Clash(sha, Committed(sha, Preimages(documents)), {LeafInput(Preimage(d))})
    requires onChainRoot == "" || ToLower(onChainRoot) == BatchOf(sha, documents).root
    ensures CleanlyAnchored(sha, documents, d, onChainRoot) <==> onChainRoot == "" || InBatch(documents, d)
  {
    if onChainRoot == "" {
      NoRootAnchorsAnything(sha, d);
    } else if InBatch(documents, d) {
      var i :| 0 <= i < |documents| && SameCommitment(documents[i], d);
      var inclusion := BatchedIsAnchored(sha, documents, d, i, onChainRoot);
      assert !Clash(sha, Committed(sha, Preimages(documents)), Inputs(sha, inclusion));
    } else if CleanlyAnchored(sha, documents, d, onChainRoot) {
      var inclusion: Inclusion :| inclusion.document == Some(d)
                                  && IsAnchored(sha, StatementFor(d), inclusion, onChainRoot)
                                  && !Clash(sha, Committed(sha, Preimages(documents)), Inputs(sha, inclusion));
      AnchoredSpeaksOf(sha, documents, StatementFor(d), inclusion, onChainRoot);
    }
  }
}
