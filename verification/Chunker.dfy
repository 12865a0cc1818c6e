/** Splitting a file and building, proving and checking Merkle trees: the loops of js/core/chunker.js. */
module Chunker {
  import opened Bytes
  import opened Wrappers

  // ----- Splitting -----

  function Chunks(bytes: Bytes, chunkSize: nat): seq<Bytes>
    requires chunkSize > 0
    decreases |bytes|
  {
    if |bytes| <= chunkSize then [bytes] else [bytes[..chunkSize]] + Chunks(bytes[chunkSize..], chunkSize)
  }

  function CeilDiv(a: nat, b: nat): nat
    requires b > 0
  {
    (a + b - 1) / b
  }

  function ChunkCount(size: nat, chunkSize: nat): nat
    requires chunkSize > 0
  {
    if size == 0 then 1 else CeilDiv(size, chunkSize)
  }

  method SplitIntoChunks(bytes: Bytes, chunkSize: int) returns (r: Result<seq<Bytes>, string>)
    ensures r.Ok? <==> chunkSize > 0
    ensures r.Ok? ==> r.value == Chunks(bytes, chunkSize)
  {
    if chunkSize <= 0 {
      return Err("chunkSize must be a positive integer");
    }
    if |bytes| == 0 {
      return Ok([[]]);
    }
    var chunks: seq<Bytes> := [];
    var offset := 0;
    while offset < |bytes|
      invariant 0 <= offset
      invariant offset < |bytes| ==> chunks + Chunks(bytes[offset..], chunkSize) == Chunks(bytes, chunkSize)
      invariant offset >= |bytes| ==> chunks == Chunks(bytes, chunkSize)
    {
      var end := if offset + chunkSize <= |bytes| then offset + chunkSize else |bytes|;
      var rest := bytes[offset..];
      assert rest[..end - offset] == bytes[offset..end];
      if chunkSize < |rest| {
        assert rest[chunkSize..] == bytes[offset + chunkSize..];
        assert chunks + ([bytes[offset..end]] + Chunks(rest[chunkSize..], chunkSize))
            == (chunks + [bytes[offset..end]]) + Chunks(rest[chunkSize..], chunkSize);
      } else {
        assert rest == bytes[offset..end];
      }
      chunks := chunks + [bytes[offset..end]];
      offset := offset + chunkSize;
    }
    return Ok(chunks);
  }

  /** Joining the chunks gives the file back: splitting loses nothing and adds nothing. */
  lemma {:induction false} JoinUndoesChunks(bytes: Bytes, chunkSize: nat)
    requires chunkSize > 0
    ensures Join(Chunks(bytes, chunkSize)) == bytes
    decreases |bytes|
  {
    if |bytes| <= chunkSize {
      JoinOne(bytes);
    } else {
      var rest := Chunks(bytes[chunkSize..], chunkSize);
      JoinUndoesChunks(bytes[chunkSize..], chunkSize);
      JoinFirst(bytes[..chunkSize], rest, bytes[chunkSize..]);
      assert bytes[..chunkSize] + bytes[chunkSize..] == bytes;
    }
  }

  lemma JoinOne(part: Bytes)
    ensures Join([part]) == part
  {
    assert [part][1..] == [];
    assert Join([part]) == part + Join([]);
  }

  lemma JoinFirst(first: Bytes, parts: seq<Bytes>, joined: Bytes)
    requires Join(parts) == joined
    ensures Join([first] + parts) == first + joined
  {
    assert ([first] + parts)[1..] == parts;
  }

  lemma CeilDivDrops(size: nat, chunkSize: nat)
    requires 0 < chunkSize < size
    ensures CeilDiv(size, chunkSize) == 1 + CeilDiv(size - chunkSize, chunkSize)
  {
    assert size + chunkSize - 1 == (size - chunkSize + chunkSize - 1) + chunkSize;
    DivideAfterAdding(size - 1, chunkSize);
  }

  lemma DivideAfterAdding(a: nat, b: nat)
    requires b > 0
    ensures (a + b) / b == a / b + 1
  {
    var d := (a + b) / b - a / b - 1;
    assert d * b == a % b - (a + b) % b by {
      assert (a + b) / b * b + (a + b) % b == a + b;
      assert a / b * b + a % b == a;
    }
    assert d >= 1 ==> d * b >= b;
    assert d <= -1 ==> d * b + b <= 0;
  }

  /** Every chunk but the last has the chunk size; the last has what is left; an empty file is one empty chunk. */
  lemma {:induction false} ChunkShape(bytes: Bytes, chunkSize: nat)
    requires chunkSize > 0
    ensures |Chunks(bytes, chunkSize)| == ChunkCount(|bytes|, chunkSize)
    ensures forall i :: 0 <= i < |Chunks(bytes, chunkSize)| ==> |Chunks(bytes, chunkSize)[i]| <= chunkSize
    ensures forall i :: 0 <= i < |Chunks(bytes, chunkSize)| - 1 ==> |Chunks(bytes, chunkSize)[i]| == chunkSize
    ensures bytes != [] ==> Chunks(bytes, chunkSize)[|Chunks(bytes, chunkSize)| - 1] != []
    decreases |bytes|
  {
    if |bytes| <= chunkSize {
      SmallCeilDiv(|bytes|, chunkSize);
    } else {
      ChunkShape(bytes[chunkSize..], chunkSize);
      CeilDivDrops(|bytes|, chunkSize);
    }
  }

  lemma SmallCeilDiv(size: nat, chunkSize: nat)
    requires size <= chunkSize && 0 < chunkSize
    ensures size > 0 ==> CeilDiv(size, chunkSize) == 1
  {
    if size > 0 {
      DivideAfterAdding(size - 1, chunkSize);
    }
  }

  // ----- Hashing -----

  function LeafInput(chunk: Bytes): Bytes {
    [0] + chunk
  }

  function NodeInput(left: Bytes, right: Bytes): Bytes {
    [1] + left + right
  }

  function LeafHash(sha: Sha, chunk: Bytes): Digest {
    sha(LeafInput(chunk))
  }

  function NodeHash(sha: Sha, left: Bytes, right: Bytes): Digest {
    sha(NodeInput(left, right))
  }

  function LeafHashes(sha: Sha, chunks: seq<Bytes>): (hashes: seq<Digest>)
    ensures |hashes| == |chunks|
  {
    seq(|chunks|, i requires 0 <= i < |chunks| => LeafHash(sha, chunks[i]))
  }

  method HashChunks(sha: Sha, chunks: seq<Bytes>) returns (hashes: seq<Digest>)
    ensures hashes == LeafHashes(sha, chunks)
  {
    hashes := [];
    for i := 0 to |chunks|
      invariant hashes == LeafHashes(sha, chunks)[..i]
    {
      hashes := hashes + [LeafHash(sha, chunks[i])];
    }
  }

  // ----- Building the levels -----

  function NextLevel(sha: Sha, level: seq<Digest>): (next: seq<Digest>)
    ensures |next| == (|level| + 1) / 2
  {
    seq((|level| + 1) / 2, k requires 0 <= k < (|level| + 1) / 2 =>
      if 2 * k + 1 == |level| then level[2 * k] else NodeHash(sha, level[2 * k], level[2 * k + 1]))
  }

  function Levels(sha: Sha, leaves: seq<Digest>): (levels: seq<seq<Digest>>)
    requires |leaves| > 0
    ensures |levels| > 0 && levels[0] == leaves && |levels[|levels| - 1]| == 1
    decreases |leaves|
  {
    if |leaves| == 1 then [leaves] else [leaves] + Levels(sha, NextLevel(sha, leaves))
  }

  function Root(sha: Sha, leaves: seq<Digest>): Digest
    requires |leaves| > 0
    decreases |leaves|
  {
    if |leaves| == 1 then leaves[0] else Root(sha, NextLevel(sha, leaves))
  }

  lemma RootTopsLevels(sha: Sha, leaves: seq<Digest>)
    requires |leaves| > 0
    ensures var levels := Levels(sha, leaves); levels[|levels| - 1][0] == Root(sha, leaves)
    decreases |leaves|
  {
  }

  /** The inner loop of the tree builder: a lone last node is promoted unchanged. */
  method HashPairs(sha: Sha, current: seq<Digest>) returns (next: seq<Digest>)
    ensures next == NextLevel(sha, current)
  {
    next := [];
    var i := 0;
    while i < |current|
      invariant i % 2 == 0 && 0 <= i <= |current| + 1
      invariant next == NextLevel(sha, current)[..i / 2]
    {
      if i + 1 == |current| {
        next := next + [current[i]];
      } else {
        next := next + [NodeHash(sha, current[i], current[i + 1])];
      }
      i := i + 2;
    }
  }

  method BuildMerkleTree(sha: Sha, leaves: seq<Digest>) returns (r: Result<seq<seq<Digest>>, string>)
    ensures r.Ok? <==> |leaves| > 0
    ensures r.Ok? ==> r.value == Levels(sha, leaves)
  {
    if |leaves| == 0 {
      return Err("cannot build a Merkle tree with no leaves");
    }
    var levels := [leaves];
    var current := leaves;
    while |current| > 1
      invariant |current| > 0 && |levels| > 0 && levels[|levels| - 1] == current
      invariant levels[..|levels| - 1] + Levels(sha, current) == Levels(sha, leaves)
      decreases |current|
    {
      var next := HashPairs(sha, current);
      levels := levels + [next];
      assert levels[..|levels| - 1] == levels[..|levels| - 2] + [current];
      current := next;
    }
    return Ok(levels);
  }

  method MerkleRoot(sha: Sha, leaves: seq<Digest>) returns (r: Result<Digest, string>)
    ensures r.Ok? <==> |leaves| > 0
    ensures r.Ok? ==> r.value == Root(sha, leaves)
  {
    var levels :- BuildMerkleTree(sha, leaves);
    RootTopsLevels(sha, leaves);
    return Ok(levels[|levels| - 1][0]);
  }

  // ----- Reading a path off the levels -----

  datatype Side = Left | Right

  datatype Step = Step(hash: Digest, side: Side)

  function StepsAt(level: seq<Digest>, position: nat): seq<Step> {
    var sibling := if position % 2 == 0 then position + 1 else position - 1;
    if sibling < |level| then [Step(level[sibling], if position % 2 == 0 then Right else Left)] else []
  }

  function PathFromLevels(levels: seq<seq<Digest>>, position: nat): seq<Step> {
    if |levels| <= 1 then [] else StepsAt(levels[0], position) + PathFromLevels(levels[1..], position / 2)
  }

  function Path(sha: Sha, leaves: seq<Digest>, index: nat): seq<Step>
    requires index < |leaves|
    decreases |leaves|
  {
    if |leaves| == 1 then [] else StepsAt(leaves, index) + Path(sha, NextLevel(sha, leaves), index / 2)
  }

  lemma PathReadsLevels(sha: Sha, leaves: seq<Digest>, index: nat)
    requires index < |leaves|
    ensures PathFromLevels(Levels(sha, leaves), index) == Path(sha, leaves, index)
    decreases |leaves|
  {
    if |leaves| > 1 {
      PathReadsLevels(sha, NextLevel(sha, leaves), index / 2);
      assert Levels(sha, leaves)[1..] == Levels(sha, NextLevel(sha, leaves));
    }
  }

  /** What is still to be read, after what has been, is the whole path. */
  ghost predicate HalfRead(levels: seq<seq<Digest>>, index: nat, level: nat, position: nat, proof: seq<Step>) {
    level < |levels| && proof + PathFromLevels(levels[level..], position) == PathFromLevels(levels, index)
  }

  lemma ReadOneLevel(levels: seq<seq<Digest>>, index: nat, level: nat, position: nat, proof: seq<Step>)
    requires level + 1 < |levels| && HalfRead(levels, index, level, position, proof)
    ensures HalfRead(levels, index, level + 1, position / 2, proof + StepsAt(levels[level], position))
  {
    assert levels[level..][1..] == levels[level + 1..];
    var rest := PathFromLevels(levels[level + 1..], position / 2);
    assert proof + (StepsAt(levels[level], position) + rest) == proof + StepsAt(levels[level], position) + rest;
  }

  lemma ReadToTheTop(levels: seq<seq<Digest>>, index: nat, position: nat, proof: seq<Step>)
    requires |levels| > 0 && HalfRead(levels, index, |levels| - 1, position, proof)
    ensures proof == PathFromLevels(levels, index)
  {
  }

  lemma NothingRead(levels: seq<seq<Digest>>, index: nat)
    requires |levels| > 0
    ensures HalfRead(levels, index, 0, index, [])
  {
    assert levels[0..] == levels;
  }

  method MerkleProofFromLevels(levels: seq<seq<Digest>>, index: int) returns (r: Result<seq<Step>, string>)
    requires |levels| > 0
    ensures r.Ok? <==> 0 <= index < |levels[0]|
    ensures r.Ok? ==> r.value == PathFromLevels(levels, index)
  {
    if index < 0 || index >= |levels[0]| {
      return Err("leaf index out of range");
    }
    var proof: seq<Step> := [];
    var position: nat := index;
    NothingRead(levels, index);
    for level := 0 to |levels| - 1
      invariant HalfRead(levels, index, level, position, proof)
    {
      var nodes := levels[level];
      ReadOneLevel(levels, index, level, position, proof);
      var sibling := if position % 2 == 0 then position + 1 else position - 1;
      if sibling < |nodes| {
        proof := proof + [Step(nodes[sibling], if position % 2 == 0 then Right else Left)];
      } else {
        assert proof + StepsAt(nodes, position) == proof;
      }
      position := position / 2;
    }
    ReadToTheTop(levels, index, position, proof);
    return Ok(proof);
  }

  method MerkleProof(sha: Sha, leaves: seq<Digest>, index: int) returns (r: Result<seq<Step>, string>)
    ensures r.Ok? <==> 0 <= index < |leaves|
    ensures r.Ok? ==> r.value == Path(sha, leaves, index)
  {
    var levels :- BuildMerkleTree(sha, leaves);
    r := MerkleProofFromLevels(levels, index);
    if r.Ok? {
      PathReadsLevels(sha, leaves, index);
    }
  }

  // ----- Folding a path back to a root -----

  const MAX_PROOF_STEPS := 64

  function ApplyStep(sha: Sha, value: Bytes, step: Step): Digest {
    if step.side == Right then NodeHash(sha, value, step.hash) else NodeHash(sha, step.hash, value)
  }

  /** The last step of a path is the one under the root. */
  function Fold(sha: Sha, value: Bytes, path: seq<Step>): Bytes {
    if path == [] then value
    else ApplyStep(sha, Fold(sha, value, path[..|path| - 1]), path[|path| - 1])
  }

  /** A step as it arrives: perhaps no object, perhaps no byte array, perhaps any string for a side. */
  datatype RawStep = NotAnObject | RawStep(hash: Option<Bytes>, side: string)

  datatype ProofError = NotAnArray | TooManySteps | StepNotAnObject | HashNot32Bytes | UnknownSide

  function Fault(step: RawStep): Option<ProofError> {
    if step.NotAnObject? then Some(StepNotAnObject)
    else if step.hash.None? || |step.hash.value| != 32 then Some(HashNot32Bytes)
    else if step.side != "left" && step.side != "right" then Some(UnknownSide)
    else None
  }

  function Parsed(step: RawStep): Step
    requires Fault(step).None?
  {
    Step(step.hash.value, if step.side == "right" then Right else Left)
  }

  predicate WellFormed(proof: seq<RawStep>) {
    forall i :: 0 <= i < |proof| ==> Fault(proof[i]).None?
  }

  function ParsedPath(proof: seq<RawStep>): (path: seq<Step>)
    requires WellFormed(proof)
    ensures |path| == |proof|
  {
    seq(|proof|, i requires 0 <= i < |proof| => Parsed(proof[i]))
  }

  /** What the verifier answers: it throws for the length first, then for the earliest malformed step. */
  function Verified(sha: Sha, leaf: Bytes, proof: Option<seq<RawStep>>, root: Bytes,
                    maxSteps: nat := MAX_PROOF_STEPS): Result<bool, ProofError>
  {
    if proof.None? then Err(NotAnArray)
    else if |proof.value| > maxSteps then Err(TooManySteps)
    else if !WellFormed(proof.value) then Err(FirstFault(proof.value))
    else Ok(Fold(sha, leaf, ParsedPath(proof.value)) == root)
  }

  function FirstFault(proof: seq<RawStep>): ProofError
    requires !WellFormed(proof)
  {
    if Fault(proof[0]).Some? then Fault(proof[0]).value else FirstFault(proof[1..])
  }

  lemma FirstFaultIsEarliest(proof: seq<RawStep>, i: nat)
    requires i < |proof| && WellFormed(proof[..i]) && Fault(proof[i]).Some?
    ensures !WellFormed(proof) && FirstFault(proof) == Fault(proof[i]).value
  {
    if i > 0 {
      assert Fault(proof[..i][0]).None?;
      assert proof[1..][..i - 1] == proof[..i][1..];
      FirstFaultIsEarliest(proof[1..], i - 1);
    }
  }

  method VerifyMerkleProof(sha: Sha, leaf: Bytes, proof: Option<seq<RawStep>>, root: Bytes,
                           maxSteps: nat := MAX_PROOF_STEPS)
    returns (r: Result<bool, ProofError>)
    ensures r == Verified(sha, leaf, proof, root, maxSteps)
  {
    if proof.None? {
      return Err(NotAnArray);
    }
    var steps := proof.value;
    if |steps| > maxSteps {
      return Err(TooManySteps);
    }
    var computed := leaf;
    for i := 0 to |steps|
      invariant WellFormed(steps[..i])
      invariant computed == Fold(sha, leaf, ParsedPath(steps[..i]))
    {
      var step := steps[i];
      if Fault(step).Some? {
        FirstFaultIsEarliest(steps, i);
        return Err(Fault(step).value);
      }
      assert ParsedPath(steps[..i + 1])[..i] == ParsedPath(steps[..i]);
      computed := ApplyStep(sha, computed, Parsed(step));
    }
    assert steps[..|steps|] == steps;
    var same := EqualBytes(computed, root);
    return Ok(same);
  }
}
