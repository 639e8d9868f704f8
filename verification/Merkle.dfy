/** The Merkle tree of packages/proof/src/merkle-tree.ts against section 2.1 of RFC 6962. SHA-256 is an
    arbitrary function from byte strings to 64-digit hex strings, so every security claim reads
    "or here are two different inputs with one hash". */
module Merkle {
  import opened Wrappers

  type Byte = n: int | 0 <= n < 256

  predicate IsHexDigit(c: char) {
    '0' <= c <= '9' || 'a' <= c <= 'f'
  }

  /** SHA256_HEX_RE. */
  predicate IsSha256Hex(s: string) {
    |s| == 64 && forall i :: 0 <= i < |s| ==> IsHexDigit(s[i])
  }

  type Digest = s: string | IsSha256Hex(s) witness seq(64, _ => '0')

  type Hash = seq<Byte> -> Digest

  function Nibble(c: char): (n: nat)
    requires IsHexDigit(c)
    ensures n < 16
  {
    if c <= '9' then c as int - '0' as int else c as int - 'a' as int + 10
  }

  /** Buffer.from(s, "hex"). */
  function FromHex(s: Digest): (bytes: seq<Byte>)
    ensures |bytes| == 32
  {
    seq(32, i requires 0 <= i < 32 => 16 * Nibble(s[2 * i]) + Nibble(s[2 * i + 1]))
  }

  lemma FromHexInjective(s: Digest, t: Digest)
    requires FromHex(s) == FromHex(t)
    ensures s == t
  {
    forall i | 0 <= i < 32
      ensures s[2 * i] == t[2 * i] && s[2 * i + 1] == t[2 * i + 1]
    {
      assert FromHex(s)[i] == FromHex(t)[i];
      assert Nibble(s[2 * i]) == Nibble(t[2 * i]) && Nibble(s[2 * i + 1]) == Nibble(t[2 * i + 1]);
    }
    forall j | 0 <= j < 64
      ensures s[j] == t[j]
    {
      assert j == 2 * (j / 2) || j == 2 * (j / 2) + 1;
    }
  }

  // ---------------------------------------------------------------- tagged inputs

  function LeafInput(leaf: Digest): seq<Byte> {
    [0] + FromHex(leaf)
  }

  function NodeInput(left: Digest, right: Digest): seq<Byte> {
    [1] + (FromHex(left) + FromHex(right))
  }

  function HashLeaf(sha: Hash, leaf: Digest): Digest {
    sha(LeafInput(leaf))
  }

  function HashPair(sha: Hash, left: Digest, right: Digest): Digest {
    sha(NodeInput(left, right))
  }

  /** Tagged inputs say what they are: leaves and nodes never coincide, and each determines its parts. */
  lemma TaggedInputs(a: Digest, b: Digest, c: Digest, d: Digest)
    ensures LeafInput(a) != NodeInput(c, d)
    ensures LeafInput(a) == LeafInput(b) ==> a == b
    ensures NodeInput(a, b) == NodeInput(c, d) ==> a == c && b == d
  {
    assert LeafInput(a)[0] == 0 && NodeInput(c, d)[0] == 1;
    if LeafInput(a) == LeafInput(b) {
      assert FromHex(a) == LeafInput(a)[1..] == LeafInput(b)[1..] == FromHex(b);
      FromHexInjective(a, b);
    }
    if NodeInput(a, b) == NodeInput(c, d) {
      var x, y := FromHex(a) + FromHex(b), FromHex(c) + FromHex(d);
      assert x == NodeInput(a, b)[1..] == NodeInput(c, d)[1..] == y;
      assert FromHex(a) == x[..32] && FromHex(c) == y[..32] && FromHex(b) == x[32..] && FromHex(d) == y[32..];
      FromHexInjective(a, c);
      FromHexInjective(b, d);
    }
  }

  // ---------------------------------------------------------------- RFC 6962

  function Pow2(n: nat): nat {
    if n == 0 then 1 else 2 * Pow2(n - 1)
  }

  /** The largest power of two smaller than n. */
  function SplitPoint(n: nat): (k: nat)
    requires n >= 2
    ensures k < n <= 2 * k
  {
    if n == 2 then 1 else 2 * SplitPoint((n + 1) / 2)
  }

  lemma {:induction false} SplitPointIsPower(n: nat)
    requires n >= 2
    ensures exists e: nat :: SplitPoint(n) == Pow2(e)
  {
    if n == 2 {
      assert Pow2(0) == 1;
    } else {
      SplitPointIsPower((n + 1) / 2);
      var e: nat :| SplitPoint((n + 1) / 2) == Pow2(e);
      assert Pow2(e + 1) == SplitPoint(n);
    }
  }

  /** The Merkle Tree Hash of section 2.1 of RFC 6962. */
  function Mth(sha: Hash, leaves: seq<Digest>): Digest
    requires leaves != []
  {
    if |leaves| == 1 then HashLeaf(sha, leaves[0])
    else
      var k := SplitPoint(|leaves|);
      HashPair(sha, Mth(sha, leaves[..k]), Mth(sha, leaves[k..]))
  }

  datatype Direction = Left | Right

  /** A sibling digest and the side on which it stands. */
  datatype Step = Step(hash: string, direction: Direction)

  /** The audit path of section 2.1.1 of RFC 6962, from the leaf up. */
  function Path(sha: Hash, m: nat, leaves: seq<Digest>): seq<Step>
    requires m < |leaves|
  {
    if |leaves| == 1 then []
    else
      var k := SplitPoint(|leaves|);
      if m < k then Path(sha, m, leaves[..k]) + [Step(Mth(sha, leaves[k..]), Right)]
      else Path(sha, m - k, leaves[k..]) + [Step(Mth(sha, leaves[..k]), Left)]
  }

  // ---------------------------------------------------------------- levels

  function Tagged(sha: Hash, leaves: seq<Digest>): seq<Digest> {
    seq(|leaves|, i requires 0 <= i < |leaves| => HashLeaf(sha, leaves[i]))
  }

  /** One round of pairing: neighbours are hashed, a last odd node is promoted unchanged. */
  function NextLevel(sha: Hash, level: seq<Digest>): (next: seq<Digest>)
    ensures |next| == (|level| + 1) / 2
  {
    seq((|level| + 1) / 2, i requires 0 <= i < (|level| + 1) / 2 =>
      if 2 * i + 1 < |level| then HashPair(sha, level[2 * i], level[2 * i + 1]) else level[2 * i])
  }

  /** The recursive root of a level of digests. */
  function RootOf(sha: Hash, level: seq<Digest>): Digest
    requires level != []
  {
    if |level| == 1 then level[0]
    else
      var k := SplitPoint(|level|);
      HashPair(sha, RootOf(sha, level[..k]), RootOf(sha, level[k..]))
  }

  function PathOf(sha: Hash, m: nat, level: seq<Digest>): seq<Step>
    requires m < |level|
  {
    if |level| == 1 then []
    else
      var k := SplitPoint(|level|);
      if m < k then PathOf(sha, m, level[..k]) + [Step(RootOf(sha, level[k..]), Right)]
      else PathOf(sha, m - k, level[k..]) + [Step(RootOf(sha, level[..k]), Left)]
  }

  lemma TaggedSlices(sha: Hash, leaves: seq<Digest>, k: nat)
    requires k <= |leaves|
    ensures Tagged(sha, leaves)[..k] == Tagged(sha, leaves[..k])
    ensures Tagged(sha, leaves)[k..] == Tagged(sha, leaves[k..])
  {
  }

  lemma {:induction false} MthIsRootOf(sha: Hash, leaves: seq<Digest>)
    requires leaves != []
    ensures Mth(sha, leaves) == RootOf(sha, Tagged(sha, leaves))
    decreases |leaves|
  {
    if |leaves| > 1 {
      var k := SplitPoint(|leaves|);
      TaggedSlices(sha, leaves, k);
      MthIsRootOf(sha, leaves[..k]);
      MthIsRootOf(sha, leaves[k..]);
    }
  }

  lemma {:induction false} PathIsPathOf(sha: Hash, m: nat, leaves: seq<Digest>)
    requires m < |leaves|
    ensures Path(sha, m, leaves) == PathOf(sha, m, Tagged(sha, leaves))
    decreases |leaves|
  {
    if |leaves| > 1 {
      var k := SplitPoint(|leaves|);
      TaggedSlices(sha, leaves, k);
      MthIsRootOf(sha, leaves[..k]);
      MthIsRootOf(sha, leaves[k..]);
      if m < k {
        PathIsPathOf(sha, m, leaves[..k]);
      } else {
        PathIsPathOf(sha, m - k, leaves[k..]);
      }
    }
  }

  /** Pairing respects the split of the tree: for an even cut the two halves pair independently. */
  lemma NextLevelSlices(sha: Hash, level: seq<Digest>, k: nat)
    requires k <= |level| && k % 2 == 0
    ensures NextLevel(sha, level)[..k / 2] == NextLevel(sha, level[..k])
    ensures NextLevel(sha, level)[k / 2..] == NextLevel(sha, level[k..])
  {
    hide HashPair;
    var h, next := k / 2, NextLevel(sha, level);
    var lower, upper := NextLevel(sha, level[..k]), NextLevel(sha, level[k..]);
    assert k == 2 * h && |lower| == h && |upper| == |next| - h;
    forall i | 0 <= i < |lower|
      ensures next[i] == lower[i]
    {
      assert 2 * i + 1 < k;
    }
    forall i | 0 <= i < |upper|
      ensures next[i + h] == upper[i]
    {
      assert 2 * (i + h) == 2 * i + k;
      assert level[k..][2 * i] == level[2 * (i + h)];
    }
    assert next[..h] == lower;
    assert next[h..] == upper;
  }

  /** One round of pairing keeps the root ... */
  lemma {:induction false} NextLevelRoot(sha: Hash, level: seq<Digest>)
    requires level != []
    ensures RootOf(sha, NextLevel(sha, level)) == RootOf(sha, level)
    decreases |level|
  {
    if |level| == 2 {
      assert level[..1] == [level[0]] && level[1..] == [level[1]];
    } else if |level| > 2 {
      var k := SplitPoint(|level|);
      assert SplitPoint((|level| + 1) / 2) == k / 2 && k % 2 == 0;
      NextLevelSlices(sha, level, k);
      NextLevelRoot(sha, level[..k]);
      NextLevelRoot(sha, level[k..]);
    }
  }

  /** The proof step getProof emits at one level for index m, if any. */
  function StepAt(level: seq<Digest>, m: nat): seq<Step>
    requires m < |level|
  {
    if m % 2 == 1 then [Step(level[m - 1], Left)]
    else if m + 1 < |level| then [Step(level[m + 1], Right)]
    else []
  }

  lemma PathUnfold(sha: Hash, m: nat, level: seq<Digest>, k: nat)
    requires m < |level| && |level| > 1 && k == SplitPoint(|level|)
    ensures m < k ==> PathOf(sha, m, level) == PathOf(sha, m, level[..k]) + [Step(RootOf(sha, level[k..]), Right)]
    ensures m >= k ==> PathOf(sha, m, level) == PathOf(sha, m - k, level[k..]) + [Step(RootOf(sha, level[..k]), Left)]
  {
  }

  lemma SplitPointHalves(n: nat)
    requires n > 2
    ensures SplitPoint((n + 1) / 2) == SplitPoint(n) / 2 && SplitPoint(n) % 2 == 0 && SplitPoint(n) >= 2
  {
  }

  /** ... and peels off the lowest step of each audit path. */
  lemma {:induction false} NextLevelPath(sha: Hash, m: nat, level: seq<Digest>)
    requires m < |level| && |level| > 1
    ensures PathOf(sha, m, level) == StepAt(level, m) + PathOf(sha, m / 2, NextLevel(sha, level))
    decreases |level|
  {
    if |level| == 2 {
      assert level[..1] == [level[0]] && level[1..] == [level[1]];
    } else {
      NextLevelPathStep(sha, m, level);
    }
  }

  lemma {:induction false} NextLevelPathStep(sha: Hash, m: nat, level: seq<Digest>)
    requires m < |level| && |level| > 2
    ensures PathOf(sha, m, level) == StepAt(level, m) + PathOf(sha, m / 2, NextLevel(sha, level))
    decreases |level|, 0
  {
    hide NextLevel, RootOf, PathOf, SplitPoint;
    var k, next := SplitPoint(|level|), NextLevel(sha, level);
    SplitPointHalves(|level|);
    NextLevelSlices(sha, level, k);
    NextLevelRoot(sha, level[..k]);
    NextLevelRoot(sha, level[k..]);
    PathUnfold(sha, m, level, k);
    PathUnfold(sha, m / 2, next, k / 2);
    if m < k {
      NextLevelPath(sha, m, level[..k]);
      assert StepAt(level, m) == StepAt(level[..k], m);
      assert m / 2 < k / 2;
    } else {
      var upper := level[k..];
      assert (m - k) / 2 == m / 2 - k / 2;
      assert StepAt(level, m) == StepAt(upper, m - k);
      if |upper| > 1 {
        NextLevelPath(sha, m - k, upper);
      } else {
        PathOfOne(sha, upper);
        PathOfOne(sha, NextLevel(sha, upper));
      }
    }
  }

  lemma PathOfOne(sha: Hash, level: seq<Digest>)
    requires |level| == 1
    ensures PathOf(sha, 0, level) == []
  {
  }

  // ---------------------------------------------------------------- verification

  predicate ValidSteps(steps: seq<Step>) {
    forall i :: 0 <= i < |steps| ==> IsSha256Hex(steps[i].hash)
  }

  /** Hashing one sibling in, on the side it stands. */
  function Combine(sha: Hash, current: Digest, step: Step): Digest
    requires IsSha256Hex(step.hash)
  {
    match step.direction
    case Left => HashPair(sha, step.hash, current)
    case Right => HashPair(sha, current, step.hash)
  }

  function Fold(sha: Hash, start: Digest, steps: seq<Step>): Digest
    requires ValidSteps(steps)
  {
    if steps == [] then start
    else Combine(sha, Fold(sha, start, steps[..|steps| - 1]), steps[|steps| - 1])
  }

  datatype Proof = Proof(leafHash: string, leafIndex: int, siblings: seq<Step>, root: string)

  predicate WellFormedProof(p: Proof) {
    IsSha256Hex(p.leafHash) && IsSha256Hex(p.root) && ValidSteps(p.siblings)
  }

  predicate Accepts(sha: Hash, p: Proof) {
    WellFormedProof(p) && Fold(sha, HashLeaf(sha, p.leafHash), p.siblings) == p.root
  }

  /** Every audit path folds its own leaf up to the root. */
  lemma {:induction false} AuditPathVerifies(sha: Hash, m: nat, leaves: seq<Digest>)
    requires m < |leaves|
    ensures ValidSteps(Path(sha, m, leaves))
    ensures Fold(sha, HashLeaf(sha, leaves[m]), Path(sha, m, leaves)) == Mth(sha, leaves)
    decreases |leaves|
  {
    if |leaves| > 1 {
      var k, path := SplitPoint(|leaves|), Path(sha, m, leaves);
      if m < k {
        AuditPathVerifies(sha, m, leaves[..k]);
        assert path[..|path| - 1] == Path(sha, m, leaves[..k]);
      } else {
        AuditPathVerifies(sha, m - k, leaves[k..]);
        assert path[..|path| - 1] == Path(sha, m - k, leaves[k..]);
      }
    }
  }

  function CeilLog2(n: nat): nat {
    if n <= 1 then 0 else 1 + CeilLog2((n + 1) / 2)
  }

  /** The root as section 2.1 of RFC 6962 spells it out: a leaf is hashed after a zero byte; a longer list is cut at the
      largest power of two below its length, and the roots of both parts are hashed, left before right, after a
      one byte. */
  lemma MthExactly(sha: Hash, leaves: seq<Digest>)
    requires leaves != []
    ensures |leaves| == 1 ==> Mth(sha, leaves) == sha([0] + FromHex(leaves[0]))
    ensures |leaves| > 1 ==> exists e: nat ::
              && Pow2(e) < |leaves| <= 2 * Pow2(e)
              && Mth(sha, leaves) == sha([1] + FromHex(Mth(sha, leaves[..Pow2(e)])) + FromHex(Mth(sha, leaves[Pow2(e)..])))
  {
    if |leaves| > 1 {
      SplitPointIsPower(|leaves|);
      var e: nat :| SplitPoint(|leaves|) == Pow2(e);
      var left, right := Mth(sha, leaves[..Pow2(e)]), Mth(sha, leaves[Pow2(e)..]);
      assert NodeInput(left, right) == [1] + FromHex(left) + FromHex(right);
      assert Mth(sha, leaves) == sha([1] + FromHex(left) + FromHex(right));
    }
  }

  lemma {:induction false} CeilLog2IsExact(n: nat)
    requires n >= 1
    ensures n <= Pow2(CeilLog2(n)) && (n > 1 ==> Pow2(CeilLog2(n) - 1) < n)
  {
    if n > 1 {
      CeilLog2IsExact((n + 1) / 2);
    }
  }

  lemma {:induction false} PathOfLength(sha: Hash, m: nat, level: seq<Digest>)
    requires m < |level|
    ensures |PathOf(sha, m, level)| <= CeilLog2(|level|)
    ensures m == 0 ==> |PathOf(sha, m, level)| == CeilLog2(|level|)
    decreases |level|
  {
    hide PathOf, NextLevel;
    if |level| == 1 {
      PathOfOne(sha, level);
    } else {
      NextLevelPath(sha, m, level);
      PathOfLength(sha, m / 2, NextLevel(sha, level));
    }
  }

  /** No proof is longer than ceil(log2 n), and the first leaf's is exactly that long. */
  lemma AuditPathLength(sha: Hash, m: nat, leaves: seq<Digest>)
    requires m < |leaves|
    ensures |Path(sha, m, leaves)| <= CeilLog2(|leaves|)
    ensures |Path(sha, 0, leaves)| == CeilLog2(|leaves|)
  {
    PathIsPathOf(sha, m, leaves);
    PathIsPathOf(sha, 0, leaves);
    PathOfLength(sha, m, Tagged(sha, leaves));
    PathOfLength(sha, 0, Tagged(sha, leaves));
  }

  // ---------------------------------------------------------------- soundness

  /** The leaf position that a proof's directions spell out in a tree of n leaves; its leafIndex plays
      no part. */
  function Position(n: nat, steps: seq<Step>): (i: Option<nat>)
    ensures i.Some? ==> i.value < n
  {
    if n == 0 then None
    else if n == 1 then (if steps == [] then Some(0) else None)
    else if steps == [] then None
    else
      var k, init := SplitPoint(n), steps[..|steps| - 1];
      match steps[|steps| - 1].direction
      case Right => Position(k, init)
      case Left => match Position(n - k, init) case Some(i) => Some(k + i) case None => None
  }

  function InputOf(current: Digest, step: Step): seq<Byte>
    requires IsSha256Hex(step.hash)
  {
    match step.direction
    case Left => NodeInput(step.hash, current)
    case Right => NodeInput(current, step.hash)
  }

  /** The input whose hash is the root. */
  function RootInput(sha: Hash, leaves: seq<Digest>): (input: seq<Byte>)
    requires leaves != []
    ensures sha(input) == Mth(sha, leaves)
  {
    if |leaves| == 1 then LeafInput(leaves[0])
    else
      var k := SplitPoint(|leaves|);
      NodeInput(Mth(sha, leaves[..k]), Mth(sha, leaves[k..]))
  }

  /** Walks an accepted proof down from the root beside the tree, to the first pair of tagged inputs
      that differ, or to the leaf. */
  function Conflict(sha: Hash, leaves: seq<Digest>, leaf: Digest, steps: seq<Step>): (seq<Byte>, seq<Byte>)
    requires leaves != [] && ValidSteps(steps)
    decreases |leaves|
  {
    var current := if steps == [] then leaf else Fold(sha, HashLeaf(sha, leaf), steps[..|steps| - 1]);
    var proved := if steps == [] then LeafInput(leaf) else InputOf(current, steps[|steps| - 1]);
    if |leaves| == 1 then (proved, LeafInput(leaves[0]))
    else
      var k, built := SplitPoint(|leaves|), RootInput(sha, leaves);
      if proved != built || steps == [] then (proved, built)
      else if steps[|steps| - 1].direction == Right then Conflict(sha, leaves[..k], leaf, steps[..|steps| - 1])
      else Conflict(sha, leaves[k..], leaf, steps[..|steps| - 1])
  }

  /** The proof names the leaf its directions spell out, with that leaf's audit path -- or the two inputs
      differ and have one hash. */
  ghost predicate SoundOr(sha: Hash, leaves: seq<Digest>, leaf: Digest, steps: seq<Step>, conflict: (seq<Byte>, seq<Byte>)) {
    && sha(conflict.0) == sha(conflict.1)
    && (conflict.0 == conflict.1 ==>
         && Position(|leaves|, steps).Some?
         && var i := Position(|leaves|, steps).value;
            leaf == leaves[i] && steps == Path(sha, i, leaves))
  }

  /** An accepted proof under the root of some leaf list names the leaf at the position its directions
      spell out, with exactly the siblings of that leaf's audit path -- or the two inputs computed by
      Conflict differ and have one hash. */
  lemma {:induction false} InclusionSoundOrCollision(sha: Hash, leaves: seq<Digest>, leaf: Digest, steps: seq<Step>)
    requires leaves != [] && ValidSteps(steps)
    requires Fold(sha, HashLeaf(sha, leaf), steps) == Mth(sha, leaves)
    ensures SoundOr(sha, leaves, leaf, steps, Conflict(sha, leaves, leaf, steps))
    decreases |leaves|
  {
    if |leaves| == 1 {
      if steps == [] {
        TaggedInputs(leaf, leaves[0], leaf, leaf);
      } else {
        var last := steps[|steps| - 1];
        var current := Fold(sha, HashLeaf(sha, leaf), steps[..|steps| - 1]);
        TaggedInputs(leaves[0], leaves[0], last.hash, current);
        TaggedInputs(leaves[0], leaves[0], current, last.hash);
      }
    } else {
      InclusionStep(sha, leaves, leaf, steps);
    }
  }

  lemma InputOfParts(current: Digest, step: Step, left: Digest, right: Digest)
    requires IsSha256Hex(step.hash) && InputOf(current, step) == NodeInput(left, right)
    ensures step.direction == Right ==> current == left && step.hash == right
    ensures step.direction == Left ==> current == right && step.hash == left
  {
    TaggedInputs(current, step.hash, left, right);
    TaggedInputs(step.hash, current, left, right);
  }

  lemma FoldNone(sha: Hash, start: Digest, steps: seq<Step>)
    requires steps == []
    ensures Fold(sha, start, steps) == start
  {
  }

  lemma FoldLast(sha: Hash, start: Digest, steps: seq<Step>)
    requires ValidSteps(steps) && steps != []
    ensures Fold(sha, start, steps) == sha(InputOf(Fold(sha, start, steps[..|steps| - 1]), steps[|steps| - 1]))
  {
  }

  lemma PathSplit(sha: Hash, leaves: seq<Digest>, k: nat)
    requires |leaves| > 1 && k == SplitPoint(|leaves|)
    ensures forall i :: 0 <= i < k ==>
              Path(sha, i, leaves) == Path(sha, i, leaves[..k]) + [Step(Mth(sha, leaves[k..]), Right)]
    ensures forall i :: k <= i < |leaves| ==>
              Path(sha, i, leaves) == Path(sha, i - k, leaves[k..]) + [Step(Mth(sha, leaves[..k]), Left)]
  {
    hide SplitPoint, Mth;
  }

  lemma SoundRight(sha: Hash, leaves: seq<Digest>, leaf: Digest, steps: seq<Step>, k: nat, conflict: (seq<Byte>, seq<Byte>))
    requires |leaves| > 1 && k == SplitPoint(|leaves|) && steps != []
    requires steps[|steps| - 1] == Step(Mth(sha, leaves[k..]), Right)
    requires SoundOr(sha, leaves[..k], leaf, steps[..|steps| - 1], conflict)
    ensures SoundOr(sha, leaves, leaf, steps, conflict)
  {
    hide Mth, SplitPoint, Path;
    PathSplit(sha, leaves, k);
    assert steps == steps[..|steps| - 1] + [steps[|steps| - 1]];
  }

  lemma SoundLeft(sha: Hash, leaves: seq<Digest>, leaf: Digest, steps: seq<Step>, k: nat, conflict: (seq<Byte>, seq<Byte>))
    requires |leaves| > 1 && k == SplitPoint(|leaves|) && steps != []
    requires steps[|steps| - 1] == Step(Mth(sha, leaves[..k]), Left)
    requires SoundOr(sha, leaves[k..], leaf, steps[..|steps| - 1], conflict)
    ensures SoundOr(sha, leaves, leaf, steps, conflict)
  {
    hide Mth, SplitPoint, Path;
    PathSplit(sha, leaves, k);
    assert steps == steps[..|steps| - 1] + [steps[|steps| - 1]];
  }

  lemma {:induction false} InclusionStep(sha: Hash, leaves: seq<Digest>, leaf: Digest, steps: seq<Step>)
    requires |leaves| > 1 && ValidSteps(steps)
    requires Fold(sha, HashLeaf(sha, leaf), steps) == Mth(sha, leaves)
    ensures SoundOr(sha, leaves, leaf, steps, Conflict(sha, leaves, leaf, steps))
    decreases |leaves|, 0
  {
    hide LeafInput, NodeInput, Mth, InputOf, SplitPoint, IsSha256Hex, Fold, Path, Position;
    var k := SplitPoint(|leaves|);
    var left, right := Mth(sha, leaves[..k]), Mth(sha, leaves[k..]);
    if steps == [] {
      FoldNone(sha, HashLeaf(sha, leaf), steps);
      TaggedInputs(leaf, leaf, left, right);
    } else {
      var init, last := steps[..|steps| - 1], steps[|steps| - 1];
      var current := Fold(sha, HashLeaf(sha, leaf), init);
      FoldLast(sha, HashLeaf(sha, leaf), steps);
      if InputOf(current, last) == NodeInput(left, right) {
        InputOfParts(current, last, left, right);
        assert last == Step(last.hash, last.direction);
        if last.direction == Right {
          InclusionSoundOrCollision(sha, leaves[..k], leaf, init);
          SoundRight(sha, leaves, leaf, steps, k, Conflict(sha, leaves[..k], leaf, init));
        } else {
          InclusionSoundOrCollision(sha, leaves[k..], leaf, init);
          SoundLeft(sha, leaves, leaf, steps, k, Conflict(sha, leaves[k..], leaf, init));
        }
      }
    }
  }

  /** Walks two trees down from equal roots to the first pair of tagged inputs that differ. */
  function ListConflict(sha: Hash, a: seq<Digest>, b: seq<Digest>): (seq<Byte>, seq<Byte>)
    requires a != [] && b != []
    decreases |a|
  {
    var x, y := RootInput(sha, a), RootInput(sha, b);
    if x != y || |a| == 1 || |b| == 1 then (x, y)
    else
      var j, k := SplitPoint(|a|), SplitPoint(|b|);
      var (u, v) := ListConflict(sha, a[..j], b[..k]);
      if u != v then (u, v) else ListConflict(sha, a[j..], b[k..])
  }

  /** Equal roots come from equal leaf lists, or from a collision. */
  lemma {:induction false} SameRootSameLeavesOrCollision(sha: Hash, a: seq<Digest>, b: seq<Digest>)
    requires a != [] && b != [] && Mth(sha, a) == Mth(sha, b)
    ensures var (x, y) := ListConflict(sha, a, b); sha(x) == sha(y) && (x == y ==> a == b)
    decreases |a|
  {
    hide LeafInput, NodeInput, Mth, SplitPoint, RootInput, IsSha256Hex;
    if RootInput(sha, a) == RootInput(sha, b) {
      if |a| == 1 || |b| == 1 {
        SingleRootInput(sha, a, b);
      } else {
        var j, k := SplitPoint(|a|), SplitPoint(|b|);
        DoubleRootInput(sha, a, b);
        SameRootSameLeavesOrCollision(sha, a[..j], b[..k]);
        SameRootSameLeavesOrCollision(sha, a[j..], b[k..]);
        assert a == a[..j] + a[j..] && b == b[..k] + b[k..];
      }
    }
  }

  lemma SingleRootInput(sha: Hash, a: seq<Digest>, b: seq<Digest>)
    requires a != [] && b != [] && (|a| == 1 || |b| == 1) && RootInput(sha, a) == RootInput(sha, b)
    ensures a == b
  {
    hide LeafInput, NodeInput, Mth, SplitPoint, IsSha256Hex;
    if |a| == 1 && |b| == 1 {
      TaggedInputs(a[0], b[0], a[0], b[0]);
      assert a == [a[0]] && b == [b[0]];
    } else if |a| == 1 {
      var k := SplitPoint(|b|);
      TaggedInputs(a[0], a[0], Mth(sha, b[..k]), Mth(sha, b[k..]));
    } else {
      var j := SplitPoint(|a|);
      TaggedInputs(b[0], b[0], Mth(sha, a[..j]), Mth(sha, a[j..]));
    }
  }

  lemma DoubleRootInput(sha: Hash, a: seq<Digest>, b: seq<Digest>)
    requires |a| > 1 && |b| > 1 && RootInput(sha, a) == RootInput(sha, b)
    ensures var j, k := SplitPoint(|a|), SplitPoint(|b|);
            Mth(sha, a[..j]) == Mth(sha, b[..k]) && Mth(sha, a[j..]) == Mth(sha, b[k..])
  {
    hide LeafInput, NodeInput, Mth, SplitPoint, IsSha256Hex;
    var j, k := SplitPoint(|a|), SplitPoint(|b|);
    TaggedInputs(Mth(sha, a[..j]), Mth(sha, a[j..]), Mth(sha, b[..k]), Mth(sha, b[k..]));
  }

  /** The duplicated-tail forgery: repeating the last leaf never keeps the root, short of a collision. */
  lemma DuplicatedTailChangesRoot(sha: Hash, leaves: seq<Digest>)
    requires leaves != []
    ensures var forged := leaves + [leaves[|leaves| - 1]];
            Mth(sha, leaves) == Mth(sha, forged) ==>
              var (x, y) := ListConflict(sha, leaves, forged); x != y && sha(x) == sha(y)
  {
    var forged := leaves + [leaves[|leaves| - 1]];
    if Mth(sha, leaves) == Mth(sha, forged) {
      SameRootSameLeavesOrCollision(sha, leaves, forged);
      assert |forged| != |leaves|;
    }
  }
}
