/** Attestation proof packages: packaging, the five verification checks, and what a verified package
    proves (packages/proof/src/attestation-proof.ts). The canonical JSON texts of an attestation and of
    a package are parameters. */
module Attestations {
  import opened Wrappers
  import opened Merkle
  import opened MerkleTrees

  datatype Encoding<!A> = Encoding(
    attestation: A -> seq<Byte>,
    package: (A, string, string, Proof, string) -> seq<Byte>)

  datatype Package<A> = Package(
    attestation: A, attestationHash: string, merkleRoot: string, inclusionProof: Proof,
    packagedAt: string, packageHash: string)

  function HashAttestation<A>(sha: Hash, enc: Encoding<A>, a: A): Digest {
    sha(enc.attestation(a))
  }

  function PackageHash<A>(sha: Hash, enc: Encoding<A>, p: Package<A>): Digest {
    sha(enc.package(p.attestation, p.attestationHash, p.merkleRoot, p.inclusionProof, p.packagedAt))
  }

  /** The five checks, none of which can be traded for another. */
  ghost predicate Verified<A>(sha: Hash, enc: Encoding<A>, p: Package<A>) {
    && HashAttestation(sha, enc, p.attestation) == p.attestationHash
    && p.attestationHash == p.inclusionProof.leafHash
    && Accepts(sha, p.inclusionProof)
    && p.merkleRoot == p.inclusionProof.root
    && PackageHash(sha, enc, p) == p.packageHash
  }

  datatype Outcome<A> =
    | Packaged(package: Package<A>)
    | EmptyTree
    | IndexOutOfRange
    | IndexNotInEventHashes
    | LeafMismatch      // thrown: the proven leaf is not this attestation

  /** packageAttestationProofResult, for any tree built by MerkleTree.build and any event hash list. */
  method PackageAttestation<A>(sha: Hash, enc: Encoding<A>, attestation: A, eventHashes: seq<string>,
                               tree: MerkleTree, index: int, now: string) returns (o: Outcome<A>)
    requires Built(sha, tree)
    ensures o.EmptyTree? <==> tree.leaves == []
    ensures o.IndexOutOfRange? <==> tree.leaves != [] && !(0 <= index < |tree.leaves|)
    ensures o.IndexNotInEventHashes? <==> |eventHashes| <= index < |tree.leaves|
    ensures o.Packaged? <==>
              && 0 <= index < |tree.leaves| && index < |eventHashes|
              && eventHashes[index] == tree.leaves[index] == HashAttestation(sha, enc, attestation)
    ensures o.Packaged? ==>
              && Verified(sha, enc, o.package)
              && o.package.attestation == attestation && o.package.packagedAt == now
              && o.package.merkleRoot == Mth(sha, tree.leaves)
              && o.package.inclusionProof.siblings == Path(sha, index, tree.leaves)
  {
    hide Mth, Path;
    if tree.root == None {
      return EmptyTree;
    }
    var inclusionProof := GetProof(sha, tree, index);
    if inclusionProof == None {
      return IndexOutOfRange;
    }
    var attestationHash := HashAttestation(sha, enc, attestation);
    if index >= |eventHashes| {
      return IndexNotInEventHashes;
    }
    if eventHashes[index] != attestationHash {
      return LeafMismatch;
    }
    if inclusionProof.value.leafHash != attestationHash {
      return LeafMismatch;
    }
    AuditPathVerifies(sha, index, tree.leaves);
    var draft := Package(attestation, attestationHash, tree.root.value.hash, inclusionProof.value, now, "");
    o := Packaged(draft.(packageHash := PackageHash(sha, enc, draft)));
  }

  datatype Check = Check(name: string, passed: bool)

  /** verifyAttestationProofDetailed: every check is evaluated and reported; a malformed Merkle proof is
      a failed check, not an exception. */
  method VerifyDetailed<A>(sha: Hash, enc: Encoding<A>, p: Package<A>) returns (valid: bool, checks: seq<Check>)
    ensures valid <==> Verified(sha, enc, p)
    ensures checks == [
      Check("attestation-hash-recompute", HashAttestation(sha, enc, p.attestation) == p.attestationHash),
      Check("leaf-binding", p.attestationHash == p.inclusionProof.leafHash),
      Check("merkle-inclusion", Accepts(sha, p.inclusionProof)),
      Check("root-consistency", p.merkleRoot == p.inclusionProof.root),
      Check("package-hash-recompute", PackageHash(sha, enc, p) == p.packageHash)]
  {
    checks := [];
    var hashRecomputed := HashAttestation(sha, enc, p.attestation) == p.attestationHash;
    checks := checks + [Check("attestation-hash-recompute", hashRecomputed)];
    var leafBound := p.attestationHash == p.inclusionProof.leafHash;
    checks := checks + [Check("leaf-binding", leafBound)];
    var folded := VerifyProof(sha, p.inclusionProof);
    var merkleValid := folded == Ok(true);
    checks := checks + [Check("merkle-inclusion", merkleValid)];
    var rootConsistent := p.merkleRoot == p.inclusionProof.root;
    checks := checks + [Check("root-consistency", rootConsistent)];
    var packageHashValid := PackageHash(sha, enc, p) == p.packageHash;
    checks := checks + [Check("package-hash-recompute", packageHashValid)];
    valid := hashRecomputed && leafBound && merkleValid && rootConsistent && packageHashValid;
  }

  /** A verified package under the root of a leaf list proves that its own attestation's hash is one of
      the leaves, at the position the proof spells out -- or yields two inputs with one hash. */
  lemma VerifiedAttestationIsLeaf<A>(sha: Hash, enc: Encoding<A>, p: Package<A>, leaves: seq<Digest>)
    requires Verified(sha, enc, p) && leaves != [] && p.merkleRoot == Mth(sha, leaves)
    ensures var (x, y) := Conflict(sha, leaves, p.attestationHash, p.inclusionProof.siblings);
            && sha(x) == sha(y)
            && (x == y ==>
                 && Position(|leaves|, p.inclusionProof.siblings).Some?
                 && leaves[Position(|leaves|, p.inclusionProof.siblings).value] == HashAttestation(sha, enc, p.attestation))
  {
    InclusionSoundOrCollision(sha, leaves, p.attestationHash, p.inclusionProof.siblings);
  }

  /** An attestation, its proof and its time leave no choice: two verified packages that share them are equal, so
      that a change of any other field of a verified package is detected. */
  lemma VerifiedDetermined<A>(sha: Hash, enc: Encoding<A>, p: Package<A>, q: Package<A>)
    requires Verified(sha, enc, p) && Verified(sha, enc, q)
    requires p.attestation == q.attestation && p.inclusionProof == q.inclusionProof && p.packagedAt == q.packagedAt
    ensures p == q
  {
  }

  /** The inputs to compare for two packages that claim one position: either proof's conflict with the
      tree, or else the two canonical attestations. */
  function BindingConflict<A>(sha: Hash, enc: Encoding<A>, p: Package<A>, q: Package<A>, leaves: seq<Digest>): (seq<Byte>, seq<Byte>)
    requires leaves != [] && WellFormedProof(p.inclusionProof) && WellFormedProof(q.inclusionProof)
    requires IsSha256Hex(p.attestationHash) && IsSha256Hex(q.attestationHash)
  {
    var first := Conflict(sha, leaves, p.attestationHash, p.inclusionProof.siblings);
    var second := Conflict(sha, leaves, q.attestationHash, q.inclusionProof.siblings);
    if first.0 != first.1 then first
    else if second.0 != second.1 then second
    else (enc.attestation(p.attestation), enc.attestation(q.attestation))
  }

  /** Two verified packages under one root whose proofs spell the same position carry the same
      canonical attestation -- or BindingConflict computes two different inputs with one hash. */
  lemma OneAttestationPerPosition<A>(sha: Hash, enc: Encoding<A>, p: Package<A>, q: Package<A>, leaves: seq<Digest>)
    requires Verified(sha, enc, p) && Verified(sha, enc, q) && leaves != []
    requires p.merkleRoot == q.merkleRoot == Mth(sha, leaves)
    requires Position(|leaves|, p.inclusionProof.siblings) == Position(|leaves|, q.inclusionProof.siblings)
    ensures var (x, y) := BindingConflict(sha, enc, p, q, leaves);
            sha(x) == sha(y) && (x == y ==> enc.attestation(p.attestation) == enc.attestation(q.attestation))
  {
    VerifiedAttestationIsLeaf(sha, enc, p, leaves);
    VerifiedAttestationIsLeaf(sha, enc, q, leaves);
  }
}
