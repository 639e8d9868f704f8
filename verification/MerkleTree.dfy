/** The loops of packages/proof/src/merkle-tree.ts: bottom-up building, proof extraction and proof
    checking, each proved against RFC 6962's recursive definitions. */
module MerkleTrees {
  import opened Wrappers
  import opened Merkle

  datatype Node = Node(hash: Digest, left: Option<Node>, right: Option<Node>)

  /** Children come in pairs and hash to their parent. */
  ghost predicate Hashed(sha: Hash, n: Node) {
    match (n.left, n.right)
    case (None, None) => true
    case (Some(l), Some(r)) => n.hash == HashPair(sha, l.hash, r.hash) && Hashed(sha, l) && Hashed(sha, r)
    case _ => false
  }

  /** The hashes of the leaves below a node, left to right. */
  ghost function Frontier(n: Node): seq<Digest> {
    match (n.left, n.right)
    case (Some(l), Some(r)) => Frontier(l) + Frontier(r)
    case _ => [n.hash]
  }

  ghost function FrontierAll(level: seq<Node>): seq<Digest> {
    if level == [] then [] else FrontierAll(level[..|level| - 1]) + Frontier(level[|level| - 1])
  }

  ghost function Hashes(level: seq<Node>): seq<Digest> {
    seq(|level|, i requires 0 <= i < |level| => level[i].hash)
  }

  ghost predicate AllHashed(sha: Hash, level: seq<Node>) {
    forall i :: 0 <= i < |level| ==> Hashed(sha, level[i])
  }

  datatype MerkleTree = MerkleTree(leaves: seq<Digest>, root: Option<Node>)

  /** What build guarantees of the tree it returns. */
  ghost predicate Built(sha: Hash, t: MerkleTree) {
    && (t.root == None <==> t.leaves == [])
    && (t.root.Some? ==>
         && t.root.value.hash == Mth(sha, t.leaves)
         && Hashed(sha, t.root.value)
         && Frontier(t.root.value) == Tagged(sha, t.leaves))
  }

  lemma FrontierSnoc(level: seq<Node>, n: Node)
    ensures FrontierAll(level + [n]) == FrontierAll(level) + Frontier(n)
  {
    assert (level + [n])[..|level|] == level;
  }

  lemma {:induction false} FrontierOfLeaves(level: seq<Node>)
    requires forall i :: 0 <= i < |level| ==> level[i].left == None && level[i].right == None
    ensures FrontierAll(level) == Hashes(level)
  {
    if level != [] {
      var init := level[..|level| - 1];
      FrontierOfLeaves(init);
      assert Hashes(level) == Hashes(init) + [level[|level| - 1].hash];
    }
  }

  /** The nodes of the next level made from the first i nodes of the current one. */
  ghost predicate Paired(sha: Hash, currentLevel: seq<Node>, nextLevel: seq<Node>, i: nat) {
    && i <= |currentLevel| && |nextLevel| == (i + 1) / 2
    && AllHashed(sha, nextLevel)
    && (forall j :: 0 <= j < |nextLevel| ==> nextLevel[j].hash == NextLevel(sha, Hashes(currentLevel))[j])
    && FrontierAll(nextLevel) == FrontierAll(currentLevel[..i])
  }

  lemma Promote(sha: Hash, currentLevel: seq<Node>, nextLevel: seq<Node>, i: nat)
    requires AllHashed(sha, currentLevel) && Paired(sha, currentLevel, nextLevel, i)
    requires i % 2 == 0 && i + 1 == |currentLevel|
    ensures Paired(sha, currentLevel, nextLevel + [currentLevel[i]], i + 1)
  {
    hide Frontier, FrontierAll, Hashed;
    FrontierSnoc(currentLevel[..i], currentLevel[i]);
    assert currentLevel[..i + 1] == currentLevel[..i] + [currentLevel[i]];
    FrontierSnoc(nextLevel, currentLevel[i]);
  }

  lemma PairParent(sha: Hash, currentLevel: seq<Node>, nextLevel: seq<Node>, i: nat, parent: Node)
    requires AllHashed(sha, currentLevel) && Paired(sha, currentLevel, nextLevel, i)
    requires i % 2 == 0 && i + 1 < |currentLevel|
    requires var l, r := currentLevel[i], currentLevel[i + 1];
             parent == Node(HashPair(sha, l.hash, r.hash), Some(l), Some(r))
    ensures Paired(sha, currentLevel, nextLevel + [parent], i + 2)
  {
    hide Frontier, FrontierAll;
    var l, r := currentLevel[i], currentLevel[i + 1];
    FrontierSnoc(currentLevel[..i], l);
    assert currentLevel[..i + 1] == currentLevel[..i] + [l];
    FrontierSnoc(currentLevel[..i + 1], r);
    assert currentLevel[..i + 2] == currentLevel[..i + 1] + [r];
    FrontierSnoc(nextLevel, parent);
    FrontierPair(parent, l, r);
    assert Hashed(sha, parent);
  }

  lemma PairedAll(sha: Hash, currentLevel: seq<Node>, nextLevel: seq<Node>)
    requires Paired(sha, currentLevel, nextLevel, |currentLevel|)
    ensures AllHashed(sha, nextLevel)
    ensures Hashes(nextLevel) == NextLevel(sha, Hashes(currentLevel))
    ensures FrontierAll(nextLevel) == FrontierAll(currentLevel)
  {
    hide Frontier, FrontierAll, Hashed;
    assert currentLevel[..|currentLevel|] == currentLevel;
  }

  lemma PairedNone(sha: Hash, currentLevel: seq<Node>)
    ensures Paired(sha, currentLevel, [], 0)
  {
  }

  /** One round of the inner loop. */
  method PairUp(sha: Hash, currentLevel: seq<Node>) returns (nextLevel: seq<Node>)
    requires AllHashed(sha, currentLevel)
    ensures AllHashed(sha, nextLevel)
    ensures Hashes(nextLevel) == NextLevel(sha, Hashes(currentLevel))
    ensures FrontierAll(nextLevel) == FrontierAll(currentLevel)
  {
    hide Paired, Hashed;
    nextLevel := [];
    PairedNone(sha, currentLevel);
    var i := 0;
    while i < |currentLevel|
      invariant 0 <= i <= |currentLevel| + 1
      invariant i <= |currentLevel| ==> i % 2 == 0
      invariant Paired(sha, currentLevel, nextLevel, if i <= |currentLevel| then i else |currentLevel|)
    {
      var left := currentLevel[i];
      if i + 1 >= |currentLevel| {
        Promote(sha, currentLevel, nextLevel, i);
        nextLevel := nextLevel + [left];
      } else {
        var right := currentLevel[i + 1];
        var parent := Node(HashPair(sha, left.hash, right.hash), Some(left), Some(right));
        PairParent(sha, currentLevel, nextLevel, i, parent);
        nextLevel := nextLevel + [parent];
      }
      i := i + 2;
    }
    PairedAll(sha, currentLevel, nextLevel);
  }

  lemma FrontierPair(parent: Node, left: Node, right: Node)
    requires parent.left == Some(left) && parent.right == Some(right)
    ensures Frontier(parent) == Frontier(left) + Frontier(right)
  {
  }

  /** buildTree: pair up until one node is left. */
  method BuildTree(sha: Hash, leaves: seq<Digest>) returns (root: Option<Node>)
    ensures Built(sha, MerkleTree(leaves, root))
  {
    hide Mth, RootOf, NextLevel, Tagged;
    if leaves == [] {
      return None;
    }
    var currentLevel := LeafNodes(sha, leaves);
    MthIsRootOf(sha, leaves);
    while |currentLevel| > 1
      invariant currentLevel != [] && AllHashed(sha, currentLevel)
      invariant RootOf(sha, Hashes(currentLevel)) == Mth(sha, leaves)
      invariant FrontierAll(currentLevel) == Tagged(sha, leaves)
      decreases |currentLevel|
    {
      NextLevelRoot(sha, Hashes(currentLevel));
      currentLevel := PairUp(sha, currentLevel);
    }
    LastLevel(sha, currentLevel);
    root := Some(currentLevel[0]);
  }

  method LeafNodes(sha: Hash, leaves: seq<Digest>) returns (level: seq<Node>)
    ensures |level| == |leaves| && AllHashed(sha, level) && Hashes(level) == Tagged(sha, leaves) && FrontierAll(level) == Tagged(sha, leaves)
  {
    level := seq(|leaves|, i requires 0 <= i < |leaves| => Node(HashLeaf(sha, leaves[i]), None, None));
    FrontierOfLeaves(level);
  }

  lemma LastLevel(sha: Hash, level: seq<Node>)
    requires |level| == 1
    ensures RootOf(sha, Hashes(level)) == level[0].hash && FrontierAll(level) == Frontier(level[0])
  {
    assert level[..0] == [];
  }

  datatype Failure = InvalidHash

  /** MerkleTree.build: rejects a leaf that is not 64 lowercase hex digits. */
  method Build(sha: Hash, leaves: seq<string>) returns (r: Result<MerkleTree, Failure>)
    ensures r.Ok? <==> forall i :: 0 <= i < |leaves| ==> IsSha256Hex(leaves[i])
    ensures r.Ok? ==> r.value.leaves == leaves && Built(sha, r.value)
  {
    hide Built;
    var digests: seq<Digest> := [];
    for i := 0 to |leaves|
      invariant forall j :: 0 <= j < i ==> IsSha256Hex(leaves[j])
      invariant digests == leaves[..i]
    {
      if !IsSha256Hex(leaves[i]) {
        return Err(InvalidHash);
      }
      digests := digests + [leaves[i]];
    }
    assert leaves[..|leaves|] == leaves;
    var root := BuildTree(sha, digests);
    r := Ok(MerkleTree(digests, root));
  }

  method NextDigests(sha: Hash, level: seq<Digest>) returns (next: seq<Digest>)
    ensures next == NextLevel(sha, level)
  {
    next := [];
    var i := 0;
    while i < |level|
      invariant 0 <= i && (i % 2 == 0 || i == |level| + 1) && i <= |level| + 1
      invariant |next| == i / 2
      invariant forall j :: 0 <= j < |next| ==> next[j] == NextLevel(sha, level)[j]
    {
      next := next + [if i + 1 >= |level| then level[i] else HashPair(sha, level[i], level[i + 1])];
      i := i + 2;
    }
  }

  /** getProof: collects the sibling of every level that has one. */
  method GetProof(sha: Hash, tree: MerkleTree, leafIndex: int) returns (p: Option<Proof>)
    requires Built(sha, tree)
    ensures p.Some? <==> 0 <= leafIndex < |tree.leaves|
    ensures p.Some? ==>
              p.value == Proof(tree.leaves[leafIndex], leafIndex, Path(sha, leafIndex, tree.leaves), Mth(sha, tree.leaves))
  {
    hide Mth, Path, PathOf, NextLevel, Tagged, Hashed, Frontier, IsSha256Hex;
    if tree.root == None || leafIndex < 0 || leafIndex >= |tree.leaves| {
      return None;
    }
    var siblings: seq<Step> := [];
    var currentIndex: nat := leafIndex;
    var currentLevel := TagLeaves(sha, tree.leaves);
    PathIsPathOf(sha, leafIndex, tree.leaves);
    while |currentLevel| > 1
      invariant currentIndex < |currentLevel|
      invariant siblings + PathOf(sha, currentIndex, currentLevel) == Path(sha, leafIndex, tree.leaves)
      decreases |currentLevel|
    {
      NextLevelPath(sha, currentIndex, currentLevel);
      var nextLevel := NextDigests(sha, currentLevel);
      ghost var before, step := siblings, StepAt(currentLevel, currentIndex);
      ghost var rest := PathOf(sha, currentIndex / 2, nextLevel);
      assert before + (step + rest) == (before + step) + rest;
      var isLeft := currentIndex % 2 == 0;
      var siblingIndex := if isLeft then currentIndex + 1 else currentIndex - 1;
      if siblingIndex < |currentLevel| {
        siblings := siblings + [Step(currentLevel[siblingIndex], if isLeft then Right else Left)];
      }
      assert siblings == before + step;
      currentIndex := currentIndex / 2;
      currentLevel := nextLevel;
    }
    PathOfOne(sha, currentLevel);
    p := Some(Proof(tree.leaves[leafIndex], leafIndex, siblings, tree.root.value.hash));
  }

  method TagLeaves(sha: Hash, leaves: seq<Digest>) returns (level: seq<Digest>)
    ensures level == Tagged(sha, leaves) && |level| == |leaves|
  {
    level := Tagged(sha, leaves);
  }

  /** verifyProof: throws on malformed hex, otherwise folds the siblings in. */
  method VerifyProof(sha: Hash, proof: Proof) returns (r: Result<bool, Failure>)
    ensures r == if WellFormedProof(proof) then Ok(Accepts(sha, proof)) else Err(InvalidHash)
  {
    if !WellFormedProof(proof) {
      return Err(InvalidHash);
    }
    var currentHash := HashLeaf(sha, proof.leafHash);
    for i := 0 to |proof.siblings|
      invariant currentHash == Fold(sha, HashLeaf(sha, proof.leafHash), proof.siblings[..i])
    {
      var step := proof.siblings[i];
      assert proof.siblings[..i + 1][..i] == proof.siblings[..i];
      currentHash := match step.direction
        case Left => HashPair(sha, step.hash, currentHash)
        case Right => HashPair(sha, currentHash, step.hash);
    }
    assert proof.siblings[..|proof.siblings|] == proof.siblings;
    r := Ok(currentHash == proof.root);
  }
}
