/**
 * What a Merkle root commits to.
 *
 * The level-by-level code is read as building one term per node, so that binding, soundness and completeness are
 * inductions over terms.  SHA-256 is an arbitrary function: a conclusion holds, or the strings that two named
 * computations hashed contain a collision.
 */
module MerkleTree {
  import opened Bytes
  import opened Chunker
  import opened Numbers
  import opened Wrappers

  datatype Tree = Leaf(chunk: Bytes) | Node(left: Tree, right: Tree)

  function HashOf(sha: Sha, t: Tree): Digest {
    match t
    case Leaf(chunk) => LeafHash(sha, chunk)
    case Node(left, right) => NodeHash(sha, HashOf(sha, left), HashOf(sha, right))
  }

  /** Every string hashed while computing the root of a tree. */
  function Hashed(sha: Sha, t: Tree): set<Bytes> {
    match t
    case Leaf(chunk) => {LeafInput(chunk)}
    case Node(left, right) =>
      Hashed(sha, left) + Hashed(sha, right) + {NodeInput(HashOf(sha, left), HashOf(sha, right))}
  }

  function Contents(t: Tree): (chunks: seq<Bytes>)
    ensures |chunks| > 0
  {
    match t
    case Leaf(chunk) => [chunk]
    case Node(left, right) => Contents(left) + Contents(right)
  }

  function ContentsOf(ts: seq<Tree>): seq<Bytes> {
    if ts == [] then [] else Contents(ts[0]) + ContentsOf(ts[1..])
  }

  function PairUp(ts: seq<Tree>): (next: seq<Tree>)
    ensures |next| == (|ts| + 1) / 2
  {
    seq((|ts| + 1) / 2, k requires 0 <= k < (|ts| + 1) / 2 =>
      if 2 * k + 1 == |ts| then ts[2 * k] else Node(ts[2 * k], ts[2 * k + 1]))
  }

  function Grow(ts: seq<Tree>): Tree
    requires |ts| > 0
    decreases |ts|
  {
    if |ts| == 1 then ts[0] else Grow(PairUp(ts))
  }

  function LeavesOf(chunks: seq<Bytes>): (ts: seq<Tree>)
    ensures |ts| == |chunks|
  {
    seq(|chunks|, i requires 0 <= i < |chunks| => Leaf(chunks[i]))
  }

  function TreeOf(chunks: seq<Bytes>): Tree
    requires |chunks| > 0
  {
    Grow(LeavesOf(chunks))
  }

  function HashesOf(sha: Sha, ts: seq<Tree>): (hashes: seq<Digest>)
    ensures |hashes| == |ts|
  {
    seq(|ts|, i requires 0 <= i < |ts| => HashOf(sha, ts[i]))
  }

  /** The strings hashed while committing to a chunk list. */
  function Committed(sha: Sha, chunks: seq<Bytes>): set<Bytes>
    requires |chunks| > 0
  {
    Hashed(sha, TreeOf(chunks))
  }

  function ChunksRoot(sha: Sha, chunks: seq<Bytes>): Digest
    requires |chunks| > 0
  {
    Root(sha, LeafHashes(sha, chunks))
  }

  // ----- The levels compute the term -----

  lemma PairUpHashes(sha: Sha, ts: seq<Tree>)
    ensures HashesOf(sha, PairUp(ts)) == NextLevel(sha, HashesOf(sha, ts))
  {
  }

  lemma {:induction false} RootOfGrown(sha: Sha, ts: seq<Tree>)
    requires |ts| > 0
    ensures Root(sha, HashesOf(sha, ts)) == HashOf(sha, Grow(ts))
    decreases |ts|
  {
    if |ts| > 1 {
      PairUpHashes(sha, ts);
      RootOfGrown(sha, PairUp(ts));
    }
  }

  /** The level loops compute the hash of the chunk list's tree term. */
  lemma RootIsTreeHash(sha: Sha, chunks: seq<Bytes>)
    requires |chunks| > 0
    ensures ChunksRoot(sha, chunks) == HashOf(sha, TreeOf(chunks))
  {
    assert HashesOf(sha, LeavesOf(chunks)) == LeafHashes(sha, chunks);
    RootOfGrown(sha, LeavesOf(chunks));
  }

  lemma ContentsOfAppend(ts: seq<Tree>, us: seq<Tree>)
    ensures ContentsOf(ts + us) == ContentsOf(ts) + ContentsOf(us)
  {
    if ts == [] {
      assert ts + us == us;
    } else {
      assert (ts + us)[1..] == ts[1..] + us;
      ContentsOfAppend(ts[1..], us);
    }
  }

  lemma {:induction false} PairUpPrefix(ts: seq<Tree>, q: nat)
    requires 2 * q <= |ts|
    ensures ContentsOf(PairUp(ts)[..q]) == ContentsOf(ts[..2 * q])
  {
    if q > 0 {
      PairUpPrefix(ts, q - 1);
      var l, r := ts[2 * q - 2], ts[2 * q - 1];
      assert PairUp(ts)[..q] == PairUp(ts)[..q - 1] + [Node(l, r)];
      assert ts[..2 * q] == ts[..2 * q - 2] + [l, r];
      ContentsOfAppend(PairUp(ts)[..q - 1], [Node(l, r)]);
      ContentsOfAppend(ts[..2 * q - 2], [l, r]);
      assert ContentsOf([Node(l, r)]) == Contents(l) + Contents(r);
      assert [l, r][1..] == [r] && ContentsOf([r]) == Contents(r);
      assert ContentsOf([l, r]) == Contents(l) + Contents(r);
    }
  }

  lemma PairUpKeepsContents(ts: seq<Tree>)
    ensures ContentsOf(PairUp(ts)) == ContentsOf(ts)
  {
    var q := |ts| / 2;
    PairUpPrefix(ts, q);
    if |ts| % 2 == 0 {
      assert PairUp(ts)[..q] == PairUp(ts) && ts[..2 * q] == ts;
    } else {
      assert PairUp(ts) == PairUp(ts)[..q] + [ts[2 * q]] && ts == ts[..2 * q] + [ts[2 * q]];
      ContentsOfAppend(PairUp(ts)[..q], [ts[2 * q]]);
      ContentsOfAppend(ts[..2 * q], [ts[2 * q]]);
    }
  }

  lemma {:induction false} GrownHoldsContents(ts: seq<Tree>)
    requires |ts| > 0
    ensures Contents(Grow(ts)) == ContentsOf(ts)
    decreases |ts|
  {
    if |ts| == 1 {
      assert ts == [ts[0]];
    } else {
      PairUpKeepsContents(ts);
      GrownHoldsContents(PairUp(ts));
    }
  }

  lemma {:induction false} LeavesHoldChunks(chunks: seq<Bytes>)
    ensures ContentsOf(LeavesOf(chunks)) == chunks
  {
    if chunks != [] {
      LeavesHoldChunks(chunks[1..]);
      assert LeavesOf(chunks)[1..] == LeavesOf(chunks[1..]);
    }
  }

  /** Promotion neither drops nor repeats a chunk: the leaves of the tree, left to right, are the list. */
  lemma TreeHoldsChunks(chunks: seq<Bytes>)
    requires |chunks| > 0
    ensures Contents(TreeOf(chunks)) == chunks
  {
    GrownHoldsContents(LeavesOf(chunks));
    LeavesHoldChunks(chunks);
  }

  // ----- Binding -----

  lemma NodeInputSplits(l1: Digest, r1: Digest, l2: Digest, r2: Digest)
    requires NodeInput(l1, r1) == NodeInput(l2, r2)
    ensures l1 == l2 && r1 == r2
  {
    assert l1 == NodeInput(l1, r1)[1..33] && l2 == NodeInput(l2, r2)[1..33];
    assert r1 == NodeInput(l1, r1)[33..] && r2 == NodeInput(l2, r2)[33..];
  }

  lemma LeafInputSplits(c: Bytes, d: Bytes)
    requires LeafInput(c) == LeafInput(d)
    ensures c == d
  {
    assert c == LeafInput(c)[1..] && d == LeafInput(d)[1..];
  }

  /** The two prefixes keep a leaf's input apart from a node's. */
  lemma DomainsAreSeparate(c: Bytes, l: Bytes, r: Bytes)
    ensures LeafInput(c) != NodeInput(l, r)
  {
    assert LeafInput(c)[0] != NodeInput(l, r)[0];
  }

  lemma ClashGrows(sha: Sha, a: set<Bytes>, b: set<Bytes>, a': set<Bytes>, b': set<Bytes>)
    requires Clash(sha, a, b) && a <= a' && b <= b'
    ensures Clash(sha, a', b')
  {
    var x, y :| x in a && y in b && Collide(sha, x, y);
    assert x in a' && y in b';
  }

  /** The string whose hash is the root of a tree. */
  function TopInput(sha: Sha, t: Tree): (x: Bytes)
    ensures x in Hashed(sha, t) && sha(x) == HashOf(sha, t)
  {
    if t.Leaf? then LeafInput(t.chunk) else NodeInput(HashOf(sha, t.left), HashOf(sha, t.right))
  }

  lemma {:induction false} TreeBinding(sha: Sha, t: Tree, u: Tree)
    requires HashOf(sha, t) == HashOf(sha, u)
    ensures t == u || Clash(sha, Hashed(sha, t), Hashed(sha, u))
  {
    if TopInput(sha, t) != TopInput(sha, u) {
      assert Collide(sha, TopInput(sha, t), TopInput(sha, u));
    } else if t.Leaf? && u.Leaf? {
      LeafInputSplits(t.chunk, u.chunk);
    } else if t.Node? && u.Node? {
      NodeInputSplits(HashOf(sha, t.left), HashOf(sha, t.right), HashOf(sha, u.left), HashOf(sha, u.right));
      TreeBinding(sha, t.left, u.left);
      TreeBinding(sha, t.right, u.right);
      if Clash(sha, Hashed(sha, t.left), Hashed(sha, u.left)) {
        ClashGrows(sha, Hashed(sha, t.left), Hashed(sha, u.left), Hashed(sha, t), Hashed(sha, u));
      } else if Clash(sha, Hashed(sha, t.right), Hashed(sha, u.right)) {
        ClashGrows(sha, Hashed(sha, t.right), Hashed(sha, u.right), Hashed(sha, t), Hashed(sha, u));
      }
    } else {
      DomainsAreSeparate(if t.Leaf? then t.chunk else u.chunk,
                         if t.Leaf? then HashOf(sha, u.left) else HashOf(sha, t.left),
                         if t.Leaf? then HashOf(sha, u.right) else HashOf(sha, t.right));
    }
  }

  /** Two chunk lists of any lengths with one root are one list, or the hashing of the two lists collides. */
  lemma RootBindsChunks(sha: Sha, cs: seq<Bytes>, ds: seq<Bytes>)
    requires |cs| > 0 && |ds| > 0
    requires ChunksRoot(sha, cs) == ChunksRoot(sha, ds)
    ensures cs == ds || Clash(sha, Committed(sha, cs), Committed(sha, ds))
  {
    RootIsTreeHash(sha, cs);
    RootIsTreeHash(sha, ds);
    TreeBinding(sha, TreeOf(cs), TreeOf(ds));
    TreeHoldsChunks(cs);
    TreeHoldsChunks(ds);
  }

  // ----- Paths -----

  /** The sibling path of leaf `j`, read off the term. */
  function PathIn(sha: Sha, t: Tree, j: nat): seq<Step>
    requires j < |Contents(t)|
  {
    if t.Leaf? then []
    else if j < |Contents(t.left)| then PathIn(sha, t.left, j) + [Step(HashOf(sha, t.right), Right)]
    else PathIn(sha, t.right, j - |Contents(t.left)|) + [Step(HashOf(sha, t.left), Left)]
  }

  function StepInput(value: Bytes, step: Step): Bytes {
    if step.side == Right then NodeInput(value, step.hash) else NodeInput(step.hash, value)
  }

  /** The string a verifier hashes last for a claimed chunk and path. */
  function LastInput(sha: Sha, chunk: Bytes, path: seq<Step>): Bytes {
    if path == [] then LeafInput(chunk)
    else StepInput(Fold(sha, LeafHash(sha, chunk), path[..|path| - 1]), path[|path| - 1])
  }

  /** Every string a verifier hashes for a claimed chunk and path. */
  function ProofInputs(sha: Sha, chunk: Bytes, path: seq<Step>): (inputs: set<Bytes>)
    ensures LastInput(sha, chunk, path) in inputs
    ensures sha(LastInput(sha, chunk, path)) == Fold(sha, LeafHash(sha, chunk), path)
  {
    (if path == [] then {} else ProofInputs(sha, chunk, path[..|path| - 1])) + {LastInput(sha, chunk, path)}
  }

  /** If tree and verifier hash the same string last, they agree on its shape and on its parts. */
  lemma SameLastInput(sha: Sha, t: Tree, chunk: Bytes, path: seq<Step>)
    requires TopInput(sha, t) == LastInput(sha, chunk, path)
    ensures t.Leaf? <==> path == []
    ensures t.Leaf? ==> t.chunk == chunk
    ensures t.Node? ==>
      var below, last := Fold(sha, LeafHash(sha, chunk), path[..|path| - 1]), path[|path| - 1];
      if last.side == Right then below == HashOf(sha, t.left) && last.hash == HashOf(sha, t.right)
      else below == HashOf(sha, t.right) && last.hash == HashOf(sha, t.left)
  {
    if path == [] {
      if t.Leaf? {
        LeafInputSplits(t.chunk, chunk);
      } else {
        DomainsAreSeparate(chunk, HashOf(sha, t.left), HashOf(sha, t.right));
      }
    } else {
      var below: Digest, last := Fold(sha, LeafHash(sha, chunk), path[..|path| - 1]), path[|path| - 1];
      if t.Leaf? {
        DomainsAreSeparate(t.chunk, below, last.hash);
        DomainsAreSeparate(t.chunk, last.hash, below);
      } else if last.side == Right {
        NodeInputSplits(HashOf(sha, t.left), HashOf(sha, t.right), below, last.hash);
      } else {
        NodeInputSplits(HashOf(sha, t.left), HashOf(sha, t.right), last.hash, below);
      }
    }
  }

  /** Leaf `j` holds the chunk and the path is its own, or tree and verifier hashed a collision. */
  ghost predicate Honest(sha: Sha, t: Tree, chunk: Bytes, path: seq<Step>, j: nat) {
    Clash(sha, Hashed(sha, t), ProofInputs(sha, chunk, path))
    || (j < |Contents(t)| && Contents(t)[j] == chunk && path == PathIn(sha, t, j))
  }

  lemma {:induction false} TreeSoundness(sha: Sha, t: Tree, chunk: Bytes, path: seq<Step>) returns (j: nat)
    requires Fold(sha, LeafHash(sha, chunk), path) == HashOf(sha, t)
    ensures Honest(sha, t, chunk, path, j)
    decreases t
  {
    j := 0;
    if TopInput(sha, t) != LastInput(sha, chunk, path) {
      LastInputsClash(sha, t, chunk, path);
      return;
    }
    SameLastInput(sha, t, chunk, path);
    if t.Node? {
      var child := if path[|path| - 1].side == Right then t.left else t.right;
      var k := TreeSoundness(sha, child, chunk, path[..|path| - 1]);
      j := HonestAbove(sha, t, chunk, path, k);
    }
  }

  lemma LastInputsClash(sha: Sha, t: Tree, chunk: Bytes, path: seq<Step>)
    requires Fold(sha, LeafHash(sha, chunk), path) == HashOf(sha, t)
    requires TopInput(sha, t) != LastInput(sha, chunk, path)
    ensures Clash(sha, Hashed(sha, t), ProofInputs(sha, chunk, path))
  {
    assert LastInput(sha, chunk, path) in ProofInputs(sha, chunk, path);
    assert Collide(sha, TopInput(sha, t), LastInput(sha, chunk, path));
  }

  lemma HonestAbove(sha: Sha, t: Tree, chunk: Bytes, path: seq<Step>, k: nat) returns (j: nat)
    requires t.Node? && path != []
    requires var last := path[|path| - 1];
      last.hash == HashOf(sha, if last.side == Right then t.right else t.left)
      && Honest(sha, if last.side == Right then t.left else t.right, chunk, path[..|path| - 1], k)
    ensures Honest(sha, t, chunk, path, j)
  {
    var rest, last := path[..|path| - 1], path[|path| - 1];
    var child := if last.side == Right then t.left else t.right;
    j := if last.side == Right then k else |Contents(t.left)| + k;
    if Clash(sha, Hashed(sha, child), ProofInputs(sha, chunk, rest)) {
      ClashGrows(sha, Hashed(sha, child), ProofInputs(sha, chunk, rest), Hashed(sha, t), ProofInputs(sha, chunk, path));
    } else {
      PathAbove(sha, t, path, rest, last, k);
    }
  }

  lemma PathAbove(sha: Sha, t: Tree, path: seq<Step>, rest: seq<Step>, last: Step, k: nat)
    requires t.Node? && path != [] && rest == path[..|path| - 1] && last == path[|path| - 1]
    requires last.hash == HashOf(sha, if last.side == Right then t.right else t.left)
    requires var child := if last.side == Right then t.left else t.right;
      k < |Contents(child)| && rest == PathIn(sha, child, k)
    ensures var j := if last.side == Right then k else |Contents(t.left)| + k;
      j < |Contents(t)| && path == PathIn(sha, t, j)
      && Contents(t)[j] == Contents(if last.side == Right then t.left else t.right)[k]
  {
    PathOfNode(sha, t, if last.side == Right then k else |Contents(t.left)| + k);
    assert path == rest + [last];
  }

  /** The path of a leaf is that of the leaf in its half, and the other half's hash. */
  lemma PathOfNode(sha: Sha, t: Tree, j: nat)
    requires t.Node? && j < |Contents(t)|
    ensures var path, n := PathIn(sha, t, j), |Contents(t.left)|;
      path != []
      && (if j < n
          then path[..|path| - 1] == PathIn(sha, t.left, j)
               && path[|path| - 1] == Step(HashOf(sha, t.right), Right) && Contents(t)[j] == Contents(t.left)[j]
          else path[..|path| - 1] == PathIn(sha, t.right, j - n)
               && path[|path| - 1] == Step(HashOf(sha, t.left), Left) && Contents(t)[j] == Contents(t.right)[j - n])
  {
  }

  /** The path leads the chunk to the root of the tree, and along it only strings of the tree are hashed. */
  ghost predicate Leads(sha: Sha, t: Tree, chunk: Bytes, path: seq<Step>) {
    Fold(sha, LeafHash(sha, chunk), path) == HashOf(sha, t) && ProofInputs(sha, chunk, path) <= Hashed(sha, t)
  }

  /** A path that leads to the root of one half leads, with the other half's hash, to the root of both. */
  lemma LeadsOn(sha: Sha, t: Tree, chunk: Bytes, path: seq<Step>, front: seq<Step>, last: Step)
    requires t.Node? && path != [] && path[..|path| - 1] == front && path[|path| - 1] == last
    requires last.hash == HashOf(sha, if last.side == Right then t.right else t.left)
    requires Leads(sha, if last.side == Right then t.left else t.right, chunk, front)
    ensures Leads(sha, t, chunk, path)
  {
    assert ProofInputs(sha, chunk, path) == ProofInputs(sha, chunk, front) + {LastInput(sha, chunk, path)};
  }

  lemma {:induction false} OwnPathLeads(sha: Sha, t: Tree, j: nat)
    requires j < |Contents(t)|
    ensures Leads(sha, t, Contents(t)[j], PathIn(sha, t, j))
  {
    if t.Node? {
      var path, chunk, n := PathIn(sha, t, j), Contents(t)[j], |Contents(t.left)|;
      PathOfNode(sha, t, j);
      if j < n {
        OwnPathLeads(sha, t.left, j);
        LeadsOn(sha, t, chunk, path, PathIn(sha, t.left, j), Step(HashOf(sha, t.right), Right));
      } else {
        OwnPathLeads(sha, t.right, j - n);
        LeadsOn(sha, t, chunk, path, PathIn(sha, t.right, j - n), Step(HashOf(sha, t.left), Left));
      }
    }
  }

  // ----- The index arithmetic reads off the term's path -----

  function Offset(ts: seq<Tree>, p: nat): nat
    requires p <= |ts|
  {
    |ContentsOf(ts[..p])|
  }

  lemma OffsetSteps(ts: seq<Tree>, p: nat)
    requires p < |ts|
    ensures Offset(ts, p + 1) == Offset(ts, p) + |Contents(ts[p])|
    ensures Offset(ts, p + 1) <= |ContentsOf(ts)|
  {
    assert ts[..p + 1] == ts[..p] + [ts[p]];
    ContentsOfAppend(ts[..p], [ts[p]]);
    assert ts == ts[..p + 1] + ts[p + 1..];
    ContentsOfAppend(ts[..p + 1], ts[p + 1..]);
  }

  /** Which leaf of the next level's tree a leaf of this level becomes. */
  function Lifted(ts: seq<Tree>, p: nat, k: nat): nat
    requires p < |ts|
  {
    if p % 2 == 0 then k else |Contents(ts[p - 1])| + k
  }

  lemma LiftKeepsPlace(ts: seq<Tree>, p: nat, k: nat)
    requires p < |ts| && |ts| > 1 && k < |Contents(ts[p])|
    ensures Lifted(ts, p, k) < |Contents(PairUp(ts)[p / 2])|
    ensures Offset(PairUp(ts), p / 2) + Lifted(ts, p, k) == Offset(ts, p) + k
  {
    PairUpPrefix(ts, p / 2);
    if p % 2 == 1 {
      OffsetSteps(ts, p - 1);
    }
  }

  lemma LiftAddsStep(sha: Sha, ts: seq<Tree>, p: nat, k: nat)
    requires p < |ts| && |ts| > 1 && k < |Contents(ts[p])|
    requires Lifted(ts, p, k) < |Contents(PairUp(ts)[p / 2])|
    ensures PathIn(sha, PairUp(ts)[p / 2], Lifted(ts, p, k))
         == PathIn(sha, ts[p], k) + StepsAt(HashesOf(sha, ts), p)
  {
  }

  /** The path of leaf `place` of the root is the path of leaf `k` inside node `p`, then the node's path. */
  ghost predicate PathSplits(sha: Sha, root: Tree, place: nat, ts: seq<Tree>, p: nat, k: nat)
    requires p < |ts| && k < |Contents(ts[p])|
  {
    place < |Contents(root)|
    && PathIn(sha, root, place) == PathIn(sha, ts[p], k) + Path(sha, HashesOf(sha, ts), p)
  }

  lemma {:induction false} GrownPath(sha: Sha, ts: seq<Tree>, place: nat, p: nat, k: nat)
    requires p < |ts| && k < |Contents(ts[p])| && place == Offset(ts, p) + k
    ensures PathSplits(sha, Grow(ts), place, ts, p, k)
    decreases |ts|
  {
    if |ts| == 1 {
      assert ts[..0] == [] && Offset(ts, p) == 0;
      assert PathIn(sha, ts[p], k) + [] == PathIn(sha, ts[p], k);
    } else {
      LiftKeepsPlace(ts, p, k);
      GrownPath(sha, PairUp(ts), place, p / 2, Lifted(ts, p, k));
      PathSplitsLower(sha, Grow(ts), place, ts, p, k);
    }
  }

  lemma PathSplitsLower(sha: Sha, root: Tree, place: nat, ts: seq<Tree>, p: nat, k: nat)
    requires p < |ts| && |ts| > 1 && k < |Contents(ts[p])|
    requires Lifted(ts, p, k) < |Contents(PairUp(ts)[p / 2])|
    requires PathSplits(sha, root, place, PairUp(ts), p / 2, Lifted(ts, p, k))
    ensures PathSplits(sha, root, place, ts, p, k)
  {
    var next, j := PairUp(ts), Lifted(ts, p, k);
    LiftAddsStep(sha, ts, p, k);
    PathThroughNextLevel(sha, ts, p);
    Regroup(PathIn(sha, root, place), PathIn(sha, next[p / 2], j),
            Path(sha, HashesOf(sha, ts), p), PathIn(sha, ts[p], k), StepsAt(HashesOf(sha, ts), p),
            Path(sha, HashesOf(sha, next), p / 2));
  }

  lemma PathThroughNextLevel(sha: Sha, ts: seq<Tree>, p: nat)
    requires p < |ts| && |ts| > 1
    ensures Path(sha, HashesOf(sha, ts), p)
         == StepsAt(HashesOf(sha, ts), p) + Path(sha, HashesOf(sha, PairUp(ts)), p / 2)
  {
    PairUpHashes(sha, ts);
  }

  lemma Regroup(whole: seq<Step>, lifted: seq<Step>, path: seq<Step>,
                below: seq<Step>, step: seq<Step>, above: seq<Step>)
    requires whole == lifted + above && lifted == below + step && path == step + above
    ensures whole == below + path
  {
  }

  lemma {:induction false} LeafOffset(chunks: seq<Bytes>, i: nat)
    requires i <= |chunks|
    ensures Offset(LeavesOf(chunks), i) == i
  {
    if i > 0 {
      LeafOffset(chunks, i - 1);
      OffsetSteps(LeavesOf(chunks), i - 1);
    }
  }

  /** Halving positions and skipping promoted nodes reads exactly the term's path to that leaf. */
  lemma PathIsTreePath(sha: Sha, chunks: seq<Bytes>, i: nat)
    requires i < |chunks|
    ensures i < |Contents(TreeOf(chunks))|
    ensures Path(sha, LeafHashes(sha, chunks), i) == PathIn(sha, TreeOf(chunks), i)
  {
    LeafOffset(chunks, i);
    GrownPath(sha, LeavesOf(chunks), i, i, 0);
    assert HashesOf(sha, LeavesOf(chunks)) == LeafHashes(sha, chunks);
  }

  // ----- Soundness, uniqueness, completeness and size -----

  /**
   * A path accepted for a chunk's content is, step for step, the path the prover gives for some occurrence of that
   * very chunk; otherwise the strings hashed by the two sides collide.
   */
  lemma AcceptedPathIsHonest(sha: Sha, chunks: seq<Bytes>, chunk: Bytes, path: seq<Step>) returns (j: nat)
    requires |chunks| > 0
    requires Fold(sha, LeafHash(sha, chunk), path) == ChunksRoot(sha, chunks)
    ensures Clash(sha, Committed(sha, chunks), ProofInputs(sha, chunk, path))
      || (j < |chunks| && chunks[j] == chunk && path == Path(sha, LeafHashes(sha, chunks), j))
  {
    RootIsTreeHash(sha, chunks);
    TreeHoldsChunks(chunks);
    j := TreeSoundness(sha, TreeOf(chunks), chunk, path);
    if !Clash(sha, Committed(sha, chunks), ProofInputs(sha, chunk, path)) {
      PathIsTreePath(sha, chunks, j);
    }
  }

  lemma HonestPathReachesRoot(sha: Sha, chunks: seq<Bytes>, i: nat)
    requires i < |chunks|
    ensures Fold(sha, LeafHash(sha, chunks[i]), Path(sha, LeafHashes(sha, chunks), i)) == ChunksRoot(sha, chunks)
  {
    RootIsTreeHash(sha, chunks);
    TreeHoldsChunks(chunks);
    PathIsTreePath(sha, chunks, i);
    OwnPathLeads(sha, TreeOf(chunks), i);
  }

  /** To check an honest proof the verifier hashes only what was hashed to compute the root. */
  lemma HonestInputsAreCommitted(sha: Sha, chunks: seq<Bytes>, i: nat)
    requires i < |chunks|
    ensures ProofInputs(sha, chunks[i], Path(sha, LeafHashes(sha, chunks), i)) <= Committed(sha, chunks)
  {
    TreeHoldsChunks(chunks);
    PathIsTreePath(sha, chunks, i);
    OwnPathLeads(sha, TreeOf(chunks), i);
  }

  /** A path has at most as many steps as the base-two logarithm of the leaf count, rounded up. */
  lemma {:induction false} PathIsShort(sha: Sha, leaves: seq<Digest>, i: nat, k: nat)
    requires i < |leaves| <= Pow2(k)
    ensures |Path(sha, leaves, i)| <= k
    decreases |leaves|
  {
    if |leaves| > 1 {
      HalvingFits(|leaves|, k);
      PathIsShort(sha, NextLevel(sha, leaves), i / 2, k - 1);
      PathLength(sha, leaves, i);
    }
  }

  lemma HalvingFits(n: nat, k: nat)
    requires 1 < n <= Pow2(k)
    ensures k > 0 && (n + 1) / 2 <= Pow2(k - 1)
  {
  }

  lemma PathLength(sha: Sha, leaves: seq<Digest>, i: nat)
    requires i < |leaves| && |leaves| > 1
    ensures |Path(sha, leaves, i)| <= 1 + |Path(sha, NextLevel(sha, leaves), i / 2)|
  {
  }

  /** A step as the prover sends it. */
  function Sent(path: seq<Step>): (proof: seq<RawStep>)
    ensures |proof| == |path|
  {
    seq(|path|, i requires 0 <= i < |path| =>
      RawStep(Some(path[i].hash), if path[i].side == Right then "right" else "left"))
  }

  lemma SentIsParsedBack(path: seq<Step>)
    ensures WellFormed(Sent(path)) && ParsedPath(Sent(path)) == path
  {
    forall i | 0 <= i < |path| ensures Fault(Sent(path)[i]).None? && Parsed(Sent(path)[i]) == path[i] {
      assert "left" != "right";
    }
  }

  /** Up to 2^64 chunks, every honest proof is accepted and never refused for its length. */
  lemma HonestProofIsAccepted(sha: Sha, chunks: seq<Bytes>, i: nat)
    requires i < |chunks| <= Pow2(64)
    ensures |Path(sha, LeafHashes(sha, chunks), i)| <= MAX_PROOF_STEPS
    ensures Verified(sha, LeafHash(sha, chunks[i]), Some(Sent(Path(sha, LeafHashes(sha, chunks), i))),
                     ChunksRoot(sha, chunks)) == Ok(true)
  {
    HonestPathReachesRoot(sha, chunks, i);
    PathIsShort(sha, LeafHashes(sha, chunks), i, 64);
    SentIsParsedBack(Path(sha, LeafHashes(sha, chunks), i));
  }

}
