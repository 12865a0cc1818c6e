# OREOCHAIN core: a verified model

OREOCHAIN splits a file into chunks, encrypts them, stores them wherever the user likes, commits to them with a Merkle
root, anchors many documents at once under one batch root, and signs receipts. The claim of the whole is that what was
anchored is what you get back. This project models the JavaScript that makes that claim and proves it in Dafny 4.11:

- **Merkle commitment and batch anchoring.** The level-building, path-reading and path-checking loops compute the
  functions of `Chunker`; `MerkleTree` shows that these are the hash of one tree term whose leaves are the chunk list,
  promotion of a lone last node included. Binding, soundness, uniqueness of paths, completeness and the size bound
  follow by induction on the term. `Anchor` lifts them to documents, `BatchQueue` is the queue that feeds batches.
- **The manifest pipeline.** Pack, seal, validate, open, fetch, check, rejoin, with the writer/reader contract in both
  directions, integrity against any storage and any manifest, position binding, the look-ahead stream, the arithmetic
  the validators do in doubles, and the guard against sealing one packed file twice.
- **Concurrent upload and retry.** The worker pool of `putAll` as a state machine whose steps are the code between two
  awaits, refined by a class; `withRetry` and gateway failover as loops proved against their own traces.
- **Canonical receipts.** The printer whose output is signed, and a parser of RFC 8259 that undoes it; no other text for
  the same value is as short.
- **Formats in full.** `WireFormat` spells out what is hashed, encrypted and refused, byte prefixes, labels and limits
  included, so that a change on both sides at once does not go unseen.

`dafny verify dfyconfig.toml` checks everything.

## How it is modelled

- **Hashing.** SHA-256 is an arbitrary function from byte strings to 32 bytes, a parameter everywhere. Since a collision
  always exists somewhere, none of the results assumes there is none: they say that the conclusion holds or that two
  different strings *among those actually hashed* by the two sides have one hash (`Clash` over `Committed` and
  `ProofInputs`). Only where a result shows such a verdict failing (`Anchor.VerdictBindsExactly`,
  `Anchor.AnchoredExactly`, `RestoreTheorems.StreamBindsExactly`) are the finitely many strings of the batch or file and
  of the one counterexample taken not to collide.
- **Ciphers.** AES-GCM and XChaCha20-Poly1305 are symbolic: opening yields a text exactly for that text's own
  ciphertext. HKDF is an arbitrary function. There is no computational attacker: where a result needs that nobody forges
  a ciphertext or a signature, it does not assume so but names the forgery as the other outcome.
- **The platform.** Ciphers, JSON text and UTF-8 are parameters with laws; `PlatformWitness.PlatformExists` exhibits a
  platform that meets them all.
- **Errors** are `Result`s carrying a short reason; the wording of the messages is not modelled.
- **Imperative code stays imperative.** Loops over arrays are methods with loops, the batch queue, the upload pool and
  the seal guard are classes; each is proved equal to a function, and the theorems are about that function.
- **Concurrency.** Code between awaits is one step. A run is any sequence of settlements and aborts, in any order.
- **Strings.** JSON text and receipts are sequences of UTF-16 code units; elsewhere strings are well-formed Unicode,
  whose length is counted in UTF-16 units wherever the code compares a `length`.
- **Plain objects as tables.** Looking a name up in one also finds what every object inherits (`PlainObject`).

## Findings

- **A wait can pass the Retry-After cap.** What the service asks for is capped, but jitter is added on top
  (`Retry.WaitMayPassTheCap`). Whatever is drawn, the wait stays within the cap exactly if what was asked plus the
  largest jitter, min(ceiling, 1000) - 1, does (`Retry.CapHoldsExactly`); so a configuration keeps every wait it grants
  within the cap exactly if it allows at most one attempt or the backoff ceiling of its last retry is at most one
  millisecond (`Retry.CapHoldsForAllExactly`).
- **The seal guard protects only calls that do not overlap.** It is asked before the awaits and written after them, so
  two rival calls that both begin first both return (`Sealing.RivalsAreReached`, from the start). Over whole runs the
  guard protects exactly if no call begins while a rival of it is in flight (`Sealing.GuardProtectsExactly`).
- **An empty on-chain root is no root.** `verifyInBatch` then falls back to the root the proof carries, and any document
  at all is anchored by a batch made up for it (`Anchor.NoRootAnchorsAnything`). Every anchored proof names a document
  of the batch, or hashes a collision with it, exactly if a root is given (`Anchor.VerdictBindsExactly`,
  `Anchor.AnchoredExactly`). Likewise the stream compares an empty expected root with nothing, and any file streams to
  its end (`RestoreTheorems.NoRootStreamsAnyFile`); complete streams are the original exactly if its root is given
  (`RestoreTheorems.StreamBindsExactly`).
- **Packing accepts what the reader will refuse for good**: an empty or over-long name or type, KDF parameters out of
  range, a location outside the pattern. A file without a name is packed, sealed and lost
  (`WriterMeetsReader.UnnamedFileIsLost`); `WriterMeetsReader.SealedManifestOpensExactly` says which packed files open.
- **A suite name that every object inherits passes `getSuite`.** The suite is not authenticated with the manifest: any
  encrypted manifest that opens still opens with its suite renamed to `constructor`, and then yields no chunk
  (`SuiteNames.InheritedNameOpensToNothing`). In the same way a refusal code such as `constructor` stops retries
  (`Retry.CodesThatStopRetries`).
- **`fileSize` is committed modulo 2^64** (`Anchor.PreimageBindsDocument`), so sizes 0 and 2^64 are committed alike
  (`Anchor.SizesWrap`).
- **The pollution check that follows the reviver never fires** (`ManifestText.SanitisedIsClean`), and neither does the
  stream's gap check on a table the validator accepted (`ChunkTable.DescribedTableHasNoGap`).

## Model

| member | source | states |
|---|---|---|
| Bytes.ConcatAll | js/core/bytes.js:86-96 | the offset loop into one preallocated array yields the concatenation of all arrays, in order |
| Bytes.EqualBytes | js/core/bytes.js:99-104 | the accumulated-difference loop answers true exactly for equal byte strings |
| Hex.ToHex | js/core/bytes.js:10-16 | the loop prints the two-digit encoding of every byte |
| Hex.FromHex | js/core/bytes.js:30-41 | accepts exactly strings of even length in hex digits after an optional prefix, and decodes them |
| Hex.DecodedUndoesTo0x | js/core/bytes.js:30-46 | decoding what to0x printed gives the bytes back; 32 bytes always print as the 66-character pattern |
| Hex.To0xUndoesDecoded | js/core/validate.js:27-27 | a string fitting the hash pattern is the only such string for its 32 bytes |
| Hex.To0xIsInjective | js/core/bytes.js:44-46 | different digests print differently |
| Text.Utf8IsInjective | js/core/bytes.js:65-67 | different strings have different UTF-8 |
| Text.DecimalIsInjective | js/core/crypto.js:118-120 | different numbers print differently in decimal |
| Base64.FromUndoesToBase64 | js/core/bytes.js:48-63 | every byte string survives base64, and what is printed fits the validator's pattern |
| Chunker.SplitIntoChunks | js/core/chunker.js:32-43 | fails exactly for a chunk size below one; otherwise the loop yields the chunk list |
| Chunker.JoinUndoesChunks | js/core/chunker.js:32-48 | joining the chunks of any file gives the file back |
| Chunker.ChunkShape | js/core/chunker.js:32-43 | there are as many chunks as the ceiling of the quotient says, one for the empty file; all but the last are full |
| Chunker.HashChunks | js/core/chunker.js:91-95 | the loop yields the leaf hash of every chunk in order |
| Chunker.HashPairs | js/core/chunker.js:63-83 | one pass over a level yields the next one, a lone last node promoted unchanged |
| Chunker.BuildMerkleTree | js/core/chunker.js:63-83 | fails exactly on no leaves; otherwise yields all levels, bottom up |
| Chunker.MerkleRoot | js/core/chunker.js:85-88 | the top of the levels is the root defined by recursion |
| Chunker.MerkleProofFromLevels | js/core/chunker.js:114-135 | fails exactly for an index out of range; otherwise reads the sibling path off the levels |
| Chunker.MerkleProof | js/core/chunker.js:102-104 | the path read off the levels is the path defined by recursion on the leaves |
| Chunker.VerifyMerkleProof | js/core/chunker.js:158-183 | the loop rejects over-long and malformed proofs at the earliest faulty step, and otherwise says whether the fold reaches the root |
| MerkleTree.RootIsTreeHash | js/core/chunker.js:50-88 | the level loops compute the hash of one tree term |
| MerkleTree.TreeHoldsChunks | js/core/chunker.js:63-83 | flattening that term gives the chunk list, in order, whatever was promoted |
| MerkleTree.RootBindsChunks | js/core/chunker.js:50-95 | two chunk lists of any lengths with one root are equal, or their hashing collides |
| MerkleTree.AcceptedPathIsHonest | js/core/chunker.js:114-183 | a path accepted for some content is that of a chunk with that content, step for step the generated one, or prover and verifier hashed a collision |
| MerkleTree.PathIsTreePath | js/core/chunker.js:114-135 | the index arithmetic over levels reads the same path as walking the tree term |
| MerkleTree.HonestPathReachesRoot | js/core/chunker.js:114-183 | the generated path of every chunk folds to the root |
| MerkleTree.PathIsShort | js/core/chunker.js:114-135 | a path has at most as many steps as the base-two logarithm of the leaf count, rounded up |
| MerkleTree.HonestProofIsAccepted | js/core/chunker.js:137-183 | every honest proof verifies and is never refused for its length, for up to 2^64 chunks |
| MerkleTree.HonestInputsAreCommitted | js/core/chunker.js:114-183 | to check an honest proof the verifier hashes only strings that were hashed to compute the root |
| WireFormat.SmallRoots | js/core/chunker.js:17-88 | the roots of one, two and three chunks in full, byte prefixes and promotion included |
| WireFormat.ProofsAnswered | js/core/chunker.js:158-183 | the verifier answers exactly the proofs of at most 64 steps whose hashes have 32 bytes and whose sides are left or right, and throws for every other |
| WireFormat.OneStep | js/core/chunker.js:158-183 | a right step hashes the value before the sibling, a left step after it |
| Anchor.AssertAnchorableDocument | js/core/anchor.js:65-84 | accepts exactly the documents whose hashes, size and manifest CID are well formed |
| Anchor.AnchorableExactly | js/core/anchor.js:65-84 | what is accepted, in full: two hashes in the pattern, a whole number not below zero and a name that is not empty |
| Anchor.DocumentPreimage | js/core/anchor.js:93-101 | exists exactly for anchorable documents |
| Anchor.SizeIsReadBack | js/core/anchor.js:98-98 | the eight size bytes, read as a big-endian number, are the size modulo 2^64 |
| Anchor.PreimageLayout | js/core/anchor.js:93-101 | the preimage is, in this order, the 32 bytes of the file hash, those of the root, the size and the CID |
| Anchor.PreimageBindsDocument | js/core/anchor.js:93-101 | two documents have one preimage exactly when hash, root and CID agree and the sizes agree modulo 2^64 |
| Anchor.SizesWrap | js/core/anchor.js:77-98 | an empty file and one of 2^64 bytes pass the check and have one preimage |
| Anchor.BuildBatch | js/core/anchor.js:114-139 | succeeds exactly on 1 to 65536 anchorable documents with distinct files, and commits to them in order |
| Anchor.ProveInBatch | js/core/anchor.js:149-164 | fails exactly for a file not in the batch; otherwise gives the proof of its first occurrence |
| Anchor.ProveWholeBatch | js/core/anchor.js:175-194 | one tree gives every document the very proof that proveInBatch gives it, and no other file one |
| Anchor.ValidMeans | js/core/anchor.js:203-239 | a membership proof is valid exactly when root, path and document are well formed, the names agree and the recomputed leaf folds to the root |
| Anchor.VerdictIsExact | js/storage/proofs.js:276-299 | for any receipt and any proof: anchored exactly if the proof is valid and the receipt states what its document does, disputed exactly if the proof is valid and the receipt states anything else |
| Anchor.AnchoredMeansInBatch | js/storage/proofs.js:276-299 | anchored against a batch's root means some document of the batch has the receipt's hash, root and CID and the proof's size modulo 2^64, or a collision was hashed |
| Anchor.DisputeIsEvidence | js/storage/proofs.js:276-291 | a dispute against a batch's root means the batch anchored exactly the carried document and the receipt states another, or a collision was hashed |
| Anchor.HonestProofIsValid | js/core/anchor.js:149-239 | every document of a built batch gets a proof that verifies against the batch's root |
| Anchor.HonestProofIsAnchored | js/storage/proofs.js:276-299 | an honest proof is accepted as anchored for the receipt that matches its document, and disputes every other receipt |
| Anchor.NoRootAnchorsAnything | js/core/anchor.js:214-217 | with an empty on-chain root every anchorable document is anchored by a batch made up for it alone, and all the verifier hashes for it is the document's own leaf |
| Anchor.AnchoredExactly | js/storage/proofs.js:276-299 | in a batch without a collision among its own strings and the document's leaf, some proof that shares no collision with it anchors a document exactly if the document is in the batch whose root is given, or no root is given |
| Anchor.VerdictBindsExactly | js/storage/proofs.js:276-299 | every anchored proof names a document of the batch or hashes, with the batch, a collision, exactly if a root is given: any one document outside the batch, its leaf in no collision with it, shows so |
| BatchQueue.Pending.Add | js/core/anchor.js:259-267 | a full queue and a duplicate change nothing; otherwise the document goes last and starts the clock if there was none; the membership set stays that of the pending hashes |
| BatchQueue.Pending.ShouldFlush | js/core/anchor.js:270-273 | true exactly for a non-empty queue that is large enough or has waited long enough |
| BatchQueue.Pending.Drain | js/core/anchor.js:285-294 | takes the entries that slice takes, from the front and for every count, forgets exactly their hashes and restarts the clock for what is left |
| BatchQueue.RunConserves | js/core/anchor.js:250-298 | over every run, drained then pending is what was accepted, in order, and the pending hashes are distinct |
| BatchQueue.AddExactly | js/core/anchor.js:259-267 | after any run a document is queued exactly while fewer than 65536 wait and none of them is for the same file |
| BatchQueue.PendingIsBuildable | js/core/anchor.js:114-131 | after every run, a non-empty queue of anchorable documents can be built into a batch |
| BatchQueue.DrainTakesThePeeked | js/core/anchor.js:275-297 | peek, any additions, then draining the peeked number removes exactly what was peeked |
| BatchQueue.DrainTakesExactly | js/core/anchor.js:285-294 | a drain takes as many as it is told, all if there are fewer, and told a negative number leaves that many |
| BatchQueue.AgeOfQueue | js/core/anchor.js:259-294 | with a monotone clock the age dates from the later of the head's arrival and the last drain |
| Suites.OpenInvertsSeal | js/core/suites.js:77-155 | every suite, the cascade with its sliced material included, opens a ciphertext to a text exactly when it is that text, sealed |
| Suites.SealAddsOverhead | js/core/suites.js:116-155 | sealing adds exactly the overhead the suite table declares |
| Crypto.DecryptUndoesEncrypt | js/core/crypto.js:122-164 | decrypting in the same place what was encrypted there gives the plaintext, under every suite |
| Crypto.AadNamesPlace | js/core/crypto.js:118-120 | the additional data determines file hash, index and chunk count |
| Crypto.InfoNamesPurpose | js/core/crypto.js:78-111 | the key derivation info determines suite and index, and never is the manifest's |
| WireFormat.EncryptedPayload | js/core/suites.js:77-155 | what is stored for a chunk under each suite: key, nonce, additional data and info in full, the cascade sealing under AES first and XChaCha20 around it |
| WireFormat.CascadeTakesBoth | js/core/suites.js:116-155 | a cascade opens exactly if the XChaCha20 layer opens and the AES layer within it does |
| WireFormat.SealedParts | js/core/manifest.js:265-303 | the wrapped key and the sealed body of an encrypted manifest: keys, nonces and additional data in full |
| WireFormat.ManifestShows | js/core/manifest.js:236-305 | the public fields of every sealed manifest, by name and value |
| Validate.KdfIsExact | js/core/validate.js:277-317 | the parameter check accepts exactly what some typed parameters describe: a known name, integers within the limits, the Argon2 shape; and returns those |
| Validate.HeaderIsExact | js/core/validate.js:137-196 | the header check accepts a manifest exactly when some typed header describes it: texts of allowed length, hashes in the pattern, numbers in range that agree with each other, and base64 secrets exactly if encrypted; and returns that one |
| Validate.ValidateManifestBody | js/core/validate.js:202-266 | accepts a body exactly when a typed body describes it: strings, entries, distinct indices, count and total; and returns that one |
| Validate.ValidateTable | js/core/validate.js:220-263 | the loop with its seen set and running total accepts exactly the tables a typed table describes |
| Validate.EntryIsExact | js/core/validate.js:224-256 | the entry check accepts exactly what a typed entry describes: index, location, hashes and sizes in range; and returns that one |
| WireFormat.LocationIsBase64Url | js/core/validate.js:29-32 | a location is 1 to 512 characters of base64url without padding |
| WireFormat.KeyPollutes | js/core/validate.js:34-60 | a member is refused exactly under one of the three keys or for what it holds |
| WireFormat.DefaultLimits | js/core/limits.js:10-70 | the limits of a manifest by name and value |
| ManifestText.AssertNoPollution | js/core/validate.js:48-60 | fails exactly when a forbidden key occurs at some depth |
| ManifestText.Revive | js/core/validate.js:86-94 | drops exactly the members under forbidden keys and raises the flag exactly when there is one |
| ManifestText.SanitisedIsClean | js/core/validate.js:86-105 | what the reviver leaves is clean, so the check after it never fires |
| ManifestText.ParseManifestJson | js/core/validate.js:67-106 | accepts a text exactly when it is a JSON object of allowed size with no forbidden key at any depth, and changes nothing in it |
| ManifestText.ReadManifest | js/core/manifest.js:403-407 | stored bytes are read exactly if their text is acceptable and its header validates |
| ManifestText.SealedManifestIsClean | js/core/validate.js:75-84 | no sealed manifest is taken for an attack, whatever the file name, its type or the locations spell |
| ManifestText.SealedTextIsRead | js/core/manifest.js:236-407 | the stored text of a sealed manifest, its date included, is read back to the very header written, exactly if it is not longer than a manifest may be |
| Binary64.NearestExists | js/core/validate.js:161-161 | every quotient has a nearest finite double |
| Binary64.CeilOfQuotient | js/core/validate.js:161-161 | for all safe integers, the ceiling of the quotient rounded to a nearest double is the ceiling of the exact quotient |
| Binary64.ComputedCountIsExact | js/core/validate.js:161-166 | so the chunk count computed in doubles is the integer one |
| Binary64.RunningTotalIsExact | js/core/validate.js:252-263 | under limits such as the defaults every partial sum of the chunk sizes is held exactly in a double |
| Manifest.AssertPackable | js/core/manifest.js:102-128 | accepts exactly the sizes and chunk sizes that the header validator will accept |
| Manifest.PackEach | js/core/manifest.js:146-228 | the packing loop yields every chunk's payload, hashes and sizes, in order |
| Manifest.PackFile | js/core/manifest.js:146-228 | packs exactly what its checks accept, into the described result |
| Manifest.OpenManifest | js/core/manifest.js:350-395 | returns the one thing a manifest opens to, and fails exactly when there is none |
| WriterMeetsReader.HeaderIsReadBack | js/core/manifest.js:265-305 | the header validator reads a sealed manifest back to the very header that was written |
| WriterMeetsReader.SealedManifestOpens | js/core/manifest.js:236-395 | every packed file that the format can carry is sealed into a manifest that both validators accept under the same limits and that opens to the keys and table sealed |
| WriterMeetsReader.SealedManifestOpensExactly | js/core/manifest.js:102-395 | among all that packing accepts, a sealed manifest opens exactly if name, type, locations, KDF parameters, overhead and body length are ones the format can carry |
| WriterMeetsReader.UnnamedFileIsLost | js/core/manifest.js:146-305 | a file packed without a name packs and seals, and what was sealed opens to nothing |
| WriterMeetsReader.OpenedManifestWasSealed | js/core/manifest.js:350-395 | conversely, whatever manifest opens under a passphrase is of the known version, names a suite getSuite lets through, and carries exactly the writer's seals of what it opened to |
| WriterMeetsReader.OpensExactly | js/core/manifest.js:350-395 | for any manifest: a plain one opens, under any passphrase and none, exactly to the body it shows; an encrypted one exactly to the keys and body whose seals under the passphrase stand in it |
| WriterMeetsReader.TableProvesChunks | js/core/manifest.js:181-228 | the leaf hashes in a packed file's table are those its root commits to, and paths read off them lead each chunk to it |
| SuiteNames.RenamedManifestOpens | js/core/suites.js:157-165 | a manifest that opens opens to the same key and table under every suite name getSuite lets through |
| SuiteNames.NoCipherYieldsNothing | js/core/crypto.js:141-164 | under a name that is no entry of the suite table no chunk is ever yielded |
| SuiteNames.InheritedNameOpensToNothing | js/core/manifest.js:370-370 | renamed to any inherited name, every encrypted manifest that opens still opens and yields nothing |
| ChunkTable.SortKeepsAll | js/core/manifest.js:494-494 | the sort keeps every entry, as often as it occurs |
| ChunkTable.AcceptedTableIsPermutation | js/core/validate.js:220-263 | n distinct indices below n are each index once: the sorted table has no gap |
| ChunkTable.DescribedTableHasNoGap | js/core/manifest.js:494-506 | the stream's length and gap checks never refuse a table the validator accepted |
| ChunkTable.SortUndoesReordering | js/core/manifest.js:494-494 | however a gap-free table is shuffled, sorting gives it back |
| Restore.LookAhead | js/core/manifest.js:508-556 | for every width the look-ahead loop yields and fails exactly as the sequential stream, starting every fetch once, in order, and at most the width ahead |
| Restore.RestoreFileStream | js/core/manifest.js:485-561 | for every concurrency the stream is the sequential one; a refused manifest or table starts no fetch, otherwise as many have been started, in order, as chunks were yielded and the concurrency allows ahead, at least one |
| Restore.RestoreFile | js/core/manifest.js:426-460 | the buffered restore is the stream, its chunks joined and checked for hash and size |
| RestoreTheorems.YieldedChunksAreChecked | js/core/manifest.js:485-611 | for any manifest, table and replies, every chunk yielded is one its own entry of the sorted table vouches for |
| RestoreTheorems.StreamEndsExactly | js/core/manifest.js:485-561 | under any expected root and none: a stream yields all its chunks exactly if it does not fail, and then they hash to the manifest's root and to the one expected; otherwise it stops at the first of an abort, a bad block and, before the last chunk, a wrong root |
| RestoreTheorems.RestoredIsWhatIsStated | js/core/manifest.js:426-460 | under any expected root and none: the buffered restore succeeds exactly if the file fits in memory, the stream is complete and its bytes have the hash and the size the manifest states; hash, size, root, name and type returned are those of the bytes and of the manifest |
| RestoreTheorems.StreamedIsOriginal | js/core/manifest.js:485-561 | for any manifest, table and replies, a stream that yields all its chunks against the root of some list has yielded that list, or a collision was hashed; a wrong root never gets past the last chunk |
| RestoreTheorems.RestoredIsOriginal | js/core/manifest.js:426-460 | for any manifest, table and replies, bytes restored against the root of a file are that file, or a collision was hashed |
| RestoreTheorems.NoRootStreamsAnyFile | js/core/manifest.js:544-549 | with an empty expected root every file streams to its end under a plain manifest of its own |
| RestoreTheorems.StreamBindsExactly | js/core/manifest.js:485-561 | every stream that yields all its chunks has yielded the original, or a collision was hashed, exactly if the original's root is expected and not an empty one: any one other file in shape, in no collision with the original, shows so |
| RestoreTheorems.RoundTripStream | js/core/manifest.js:485-561 | with honest storage and the table in any order the stream yields exactly the chunks of the file |
| RestoreTheorems.RoundTrip | js/core/manifest.js:146-460 | pack, seal, open and restore give back bytes, name and type, for every file and suite the writer accepts, encrypted or not, the table in any order |
| PositionBinding.PackingSeals | js/core/manifest.js:181-206 | what packing encrypts at an index is sealed under the request and additional data of that index |
| PositionBinding.RequestNamesKey | js/core/crypto.js:78-80 | equal derivation requests mean equal key, salt, suite and index |
| PositionBinding.YieldedChunksKeepTheirPlace | js/core/manifest.js:572-611 | over any set of packings, a chunk yielded at an index of an encrypted manifest is the plaintext of that chunk of a packed file with the same file hash and count, and the same key unless HKDF gave two requests one answer; or its own reply is a forgery, which opens in its place though no packing sealed it |
| PositionBinding.ReplayedChunksKeepTheirPlace | js/core/manifest.js:572-611 | against storage that serves packed payloads in any arrangement, with nothing assumed, each chunk yielded keeps its place or two different sealings have one ciphertext |
| Sealing.SealedBodies.AssertBodyNotAlreadySealed | js/core/manifest.js:330-344 | passes exactly unencrypted files, keys not sealed yet and repeats of the same body |
| Sealing.SealedBodies.Record | js/core/manifest.js:303-303 | records the body for the key, if there is one, and nothing else |
| Sealing.SealedBodies.SealAlone | js/core/manifest.js:265-303 | a call with nothing else going on is one begin and one finish of the guard's state machine |
| Sealing.NoRivalsMeansOneBody | js/core/manifest.js:265-344 | over every run in which no two different sealings of one key overlap, all manifests returned for a key were sealed from one body |
| Sealing.RivalsBothReturn | js/core/manifest.js:265-303 | in any state with two rivals in flight, letting both finish returns two bodies for one key |
| Sealing.RivalsAreReached | js/core/manifest.js:265-303 | from the start, two different sealings of one key that overlap both return |
| Sealing.GuardProtectsExactly | js/core/manifest.js:265-344 | over whole runs, the guard keeps one body per key at every point and however calls finish exactly if no call begins while a rival is in flight |
| Sealing.SafeIffAllAgree | js/core/manifest.js:303-303 | at one point of a run, the calls already admitted can do no harm in any order and outcome exactly if those returned and those in flight agree on the body of each key |
| Sealing.SequentialSealingIsSafe | js/core/manifest.js:307-344 | over every run of calls one after another, failed and repeated ones included, each key is sealed as one body only |
| Sealing.AgreeingCallsReturn | js/core/manifest.js:307-344 | nor does the guard stand in the way: over every run of calls one after another in which each key is used for one body, every call that succeeds returns |
| Upload.Uploader.constructor | js/storage/ipfs.js:384-446 | resumed locations are kept, the missing indices become the queue, and the workers start one after another up to their first put |
| Upload.Begin | js/storage/ipfs.js:406-420 | a signal aborted beforehand is thrown and starts nothing; otherwise the pool starts |
| Upload.Uploader.Continue | js/storage/ipfs.js:423-431 | the code from the top of a worker's loop to its await is one step of the state machine |
| Upload.Uploader.Resume | js/storage/ipfs.js:426-441 | the code after an await, success or failure, up to the next one, is one step of the state machine |
| Upload.Uploader.Collect | js/storage/ipfs.js:445-455 | throws the failure noted, else the first rejection; without one returns the locations, or names the first that is missing |
| UploadTheorems.RunIsSound | js/storage/ipfs.js:384-455 | every state that any interleaving reaches satisfies the pool's invariant, for the same chunks and workers |
| UploadTheorems.EachChunkOnce | js/storage/ipfs.js:423-441 | over every interleaving each missing chunk is put at most once with its own payload and name, resumed ones never, and the progress counts finished plus resumed |
| UploadTheorems.NamesDiffer | js/storage/ipfs.js:427-427 | padded chunk names are different for different chunks, however many there are |
| UploadTheorems.BoundedInFlight | js/storage/ipfs.js:443-446 | over every interleaving from the start at most one put, or as many as the concurrency allows, are outstanding, and never more than are to be made |
| UploadTheorems.StartsInParallel | js/storage/ipfs.js:443-446 | the upload starts with exactly as many workers and puts as the concurrency allows, or as there are chunks if those are fewer, or one |
| UploadTheorems.NormalReturnIsComplete | js/storage/ipfs.js:384-455 | over every interleaving from the start, when every worker has returned, each missing chunk was put and stored, and every location is in its own slot |
| UploadTheorems.UndisturbedRunCompletes | js/storage/ipfs.js:384-455 | over every interleaving from the start in which no put failed and nobody aborted, the upload is complete as soon as no put is outstanding |
| UploadTheorems.NoPutAfterStop | js/storage/ipfs.js:424-440 | once the pool has stopped no put begins |
| UploadTheorems.FirstFailureIsReported | js/storage/ipfs.js:384-449 | over every interleaving from the start, unless the caller aborted, a failed put has stopped the pool and the error thrown is that of the first put that failed, never an abort it caused |
| UploadTheorems.FirstFailureStays | js/storage/ipfs.js:432-440 | errors are kept in order, so the first to break the pool stays the first |
| UploadTheorems.ThrownIsKnown | js/storage/ipfs.js:432-449 | whatever is thrown, aborted or not, is the error of a put that failed or the abort itself |
| UploadTheorems.RunsTerminate | js/storage/ipfs.js:384-446 | a run from the start has at most as many settlements as there are chunks to upload, and is over exactly when none is outstanding |
| Retry.WithRetry | js/storage/ipfs.js:100-136 | the loop has the ending, the number of calls and the waits of the trace defined by recursion |
| Retry.BackOff | js/storage/ipfs.js:119-129 | the wait is jitter under the doubling ceiling, or the asked wait plus jitter under a second |
| Retry.RetryableExactly | js/storage/ipfs.js:59-69 | never an abort; else what the code says; else any failure without a status, 408, 429 and 500 upwards |
| Retry.RetriesOnlyWhatMayPass | js/storage/ipfs.js:59-136 | at most maxAttempts calls, never one after a failure not worth retrying; a value returned is the last call's |
| Retry.WaitsAreDue | js/storage/ipfs.js:119-132 | each wait is the one due after its own attempt |
| Retry.LastErrorIsThrown | js/storage/ipfs.js:112-135 | an error thrown is that of the last attempt, which was not to be repeated, unless it is an abort or no attempt was allowed |
| Retry.AbortStops | js/storage/ipfs.js:104-132 | once the signal is found aborted no call is made any more, and the abort is what is thrown |
| Retry.FirstSuccessIsReturned | js/storage/ipfs.js:111-136 | with patience allowed and no abort the first success is returned, after exactly that many calls |
| Retry.BackoffAddsUp | js/storage/ipfs.js:119-132 | without Retry-After the waits add up to at most base times (2^(m-1) - 1) and (m-1) times maxBackoff |
| Retry.RetryAfterIsAFloor | js/storage/ipfs.js:122-129 | with Retry-After each wait lies between what was asked and that plus the largest jitter under min(ceiling, 1000), and what was asked is within the cap |
| Retry.WaitMayPassTheCap | js/storage/ipfs.js:127-128 | a concrete wait longer than the cap |
| Retry.CapHoldsExactly | js/storage/ipfs.js:119-129 | whatever is drawn, the wait stays within the cap exactly if what was asked plus the largest jitter does |
| Retry.CapHoldsForAllExactly | js/storage/ipfs.js:100-136 | a configuration keeps every wait it grants with Retry-After within the cap exactly if it allows at most one attempt or the ceiling of its last retry is at most one millisecond |
| Retry.FetchFromGateways | js/storage/ipfs.js:231-256 | an unsafe location is refused with no request; otherwise the loop is the failover defined by recursion |
| Retry.RequestsAreBounded | js/storage/ipfs.js:231-256 | at most gateways times maxAttempts requests |
| Retry.FirstGatewayWins | js/storage/ipfs.js:231-256 | the answer is that of the first gateway in order that returns or at which the caller aborts: every other failure moves on |
| Retry.FoundExactly | js/storage/ipfs.js:231-256 | a value is found exactly if some gateway returns it and no earlier one returns or ends in an abort; only an abort stops the search; nothing is found exactly if no gateway does either |
| JsonStrings.StringIsReadBack | js/core/receipt.js:43-47 | every string, control characters and lone surrogates included, survives quoting and parsing |
| JsonStrings.NumberIsReadBack | js/core/receipt.js:43-43 | every number token is read back whole |
| Receipt.KeysComeInOrder | js/core/receipt.js:46-46 | of two members printed, the key of the one before has the smaller code unit where they first differ, or ends there, whatever order they were set in |
| CanonicalReading.ValueIsReadBack | js/core/receipt.js:42-48 | the parser reads the canonical text of any plain value back, followed by anything that may follow a value |
| ReceiptTheorems.ParseUndoesCanonicalize | js/core/receipt.js:42-48 | parsing the canonical text of a plain value gives the value without its undefined members |
| ReceiptTheorems.NormalIsCanonical | js/core/receipt.js:42-48 | that value has the same canonical text again |
| ReceiptTheorems.CanonicalTextIsMeaning | js/core/receipt.js:42-48 | two plain values have one canonical text exactly when they say the same, whatever the order of their keys |
| ShortestText.CanonicalIsShortest | js/core/receipt.js:42-48 | of all well-formed JSON texts for the value in normal form the canonical one is the shortest, and any other as long differs only in capital hexadecimal digits of escapes |
| ShortestText.StringIsShort | js/core/receipt.js:43-47 | however a string is written in well-formed JSON, it takes no less than its quoted form, which escapes nothing that need not be |
| ShortestText.CanonicalSample | js/core/receipt.js:42-48 | one text in full: keys in order, undefined left out, no white space, a hyphen bare and a tab escaped |
| ShortestText.SurrogateSamples | js/core/receipt.js:43-47 | a surrogate on its own is escaped in small digits, a pair is printed as it is |
| ReceiptTheorems.ExportKeepsSignedText | js/core/receipt.js:210-218 | export then import leaves the signed bytes of the statement untouched |
| ReceiptTheorems.ImportedReceiptVerifiesAlike | js/core/receipt.js:150-218 | the imported receipt gets the verdict the exported one would have got, about the same statement |
| Issuing.StatementNamesDocument | js/core/receipt.js:96-129 | the statement signed names the document's hash, root, CID, size and chunk count, and asserts neither encryption nor suite unasked |
| Issuing.StatementNamesIssuer | js/core/receipt.js:88-102 | the statement names its version, issuer, key and date, with the defaults for what was left out |
| Issuing.StatementAsserts | js/core/receipt.js:102-129 | it repeats what the caller said of encryption and suite, and says verified exactly for a caller that said so |
| Issuing.IssuedReceiptIs | js/core/receipt.js:87-145 | a receipt is issued exactly for a document with its three names, and holds the statement and the signature of its canonical text |
| Issuing.IssuedReceiptVerifies | js/core/receipt.js:87-218 | a receipt issued, exported and imported verifies and says what its issuer stated |
| Issuing.ValidMeansIssued | js/core/receipt.js:150-186 | whatever was issued, a receipt that verifies says exactly what some issued statement says, or its own signature is good over a text that none of them has; and it is in the known version and within its window |
| Issuing.RefusedExactly | js/core/receipt.js:150-186 | a receipt that is refused is refused for the first check that fails: shape, version, base64, signature, date, future, age |

## Left out

- Real cryptography: SHA-256, AES-GCM, XChaCha20, HKDF, Argon2id, PBKDF2 and ECDSA are parameters.
- Random numbers, clocks and the network: they are parameters; a fetch or a put is only its outcome, and timeouts,
  headers and abort listeners are not modelled.
- The user interface, the pages and their controllers, the contracts and the server.
- `js/core/kdf.js` beyond the parameter checks: its worker, its fallback and the merging of defaults in `kdfSpec`.
- `JSON.parse` and `JSON.stringify` outside `canonicalize`: assumed inverse on JSON whose numbers are all doubles, and
  UTF-8 on its text; `PlatformWitness.PlatformExists` shows that this can be had together with the ciphers' laws.
- Arrays of 2^53 elements or more, which JavaScript cannot hold (`WriterMeetsReader.Holdable`).
- Numbers in receipts: a finite number is the decimal token JSON.stringify prints for it, and minus zero is zero;
  printing doubles is not modelled, nor is the enumeration of integer-like keys, which sorting undoes.
- Letter case: `toLowerCase` is modelled as far as its result is ASCII, and is a parameter where a receipt is issued.
- Undefined array elements in `canonicalize`, NaN and fractional options, and callbacks that throw
  (`onProgress`, `onRetry`).
- `checkReceipt` and `checkVerifyResponse` (js/storage/proofs.js), `proveChunk` and `checkChunkProof`
  (js/core/manifest.js): calls of what is modelled, with field-by-field results.
- `keyId`, the adapters and `parseRetryAfter`: they would add only easy members.
- Manifest.PackFile: packing under an inherited suite name is taken to fail. Where the platform derives zero bits for
  the name `constructor`, sealing would hand empty material back; nothing packed so can be restored
  (`SuiteNames.NoCipherYieldsNothing`).
- Upload.Uploader.Resume: does not model an adapter whose put throws before it returns a promise; it settles later here.
- Restore.RestoreFileStream: a consumer that stops early is not modelled; each chunk yielded is what it would have seen.
- Sealing.SealedBodies.SealAlone: file keys are numbers standing for the identity of a byte array; garbage collection of
  the weak map is not modelled.
