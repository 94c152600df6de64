/**
Merkle roots and inclusion proofs over a list of leaves (`src/crypto/hash.rs`). Leaves and inner
nodes carry the 0x00 and 0x01 prefixes of section 2.1 of RFC 6962; unlike there, the last node of
an odd level is paired with itself.
*/
module Merkle {
  import opened Common
  import opened Hashing

  const LEAF_PREFIX: bv8 := 0x00
  const NODE_PREFIX: bv8 := 0x01

  /** The bytes of "empty". */
  const EMPTY_LIST_SEED: Bytes := [0x65, 0x6d, 0x70, 0x74, 0x79]

  function LeafInput(leaf: Bytes): Bytes { [LEAF_PREFIX] + leaf }

  function NodeInput(left: Bytes, right: Bytes): Bytes { [NODE_PREFIX] + left + right }

  /** What is hashed above position `i` of a level: its pair, or the last node of an odd level twice. */
  function PairInput(level: seq<Bytes>, i: nat): Bytes
    requires 2 * i < |level|
  {
    NodeInput(level[2 * i], level[Min(2 * i + 1, |level| - 1)])
  }

  function LeafLevel(h: Sha3, leaves: seq<Bytes>): (level: seq<Bytes>)
    ensures |level| == |leaves|
  {
    seq(|leaves|, i requires 0 <= i < |leaves| => h(LeafInput(leaves[i])))
  }

  /** The level above, built from chunks of two. */
  function NextLevel(h: Sha3, level: seq<Bytes>): (next: seq<Bytes>)
    ensures |next| == (|level| + 1) / 2
  {
    if level == [] then []
    else if |level| == 1 then [h(NodeInput(level[0], level[0]))]
    else [h(NodeInput(level[0], level[1]))] + NextLevel(h, level[2..])
  }

  lemma {:induction false} NextLevelAt(h: Sha3, level: seq<Bytes>, i: nat)
    requires 2 * i < |level|
    ensures NextLevel(h, level)[i] == h(PairInput(level, i))
  {
    if i > 0 {
      NextLevelAt(h, level[2..], i - 1);
      assert PairInput(level[2..], i - 1) == PairInput(level, i);
    }
  }

  /** The single node left when levels are reduced. */
  function RootOf(h: Sha3, level: seq<Bytes>): Bytes
    requires |level| > 0
    decreases |level|
  {
    if |level| == 1 then level[0] else RootOf(h, NextLevel(h, level))
  }

  /** The siblings met on the way from position `i` to the root. */
  function ProofOf(h: Sha3, level: seq<Bytes>, i: nat): seq<Bytes>
    requires i < |level|
    decreases |level|
  {
    if |level| == 1 then [] else [level[Sibling(|level|, i)]] + ProofOf(h, NextLevel(h, level), i / 2)
  }

  function Sibling(n: nat, i: nat): nat
    requires i < n
  {
    if i % 2 == 0 then Min(i + 1, n - 1) else i - 1
  }

  /** What a verifier hashes at a step: the sibling goes right of an even position and left of an odd one. */
  function StepInput(current: Bytes, sibling: Bytes, i: nat): Bytes
  {
    if i % 2 == 0 then NodeInput(current, sibling) else NodeInput(sibling, current)
  }

  function Fold(h: Sha3, current: Bytes, proof: seq<Bytes>, i: nat): Bytes
    decreases |proof|
  {
    if proof == [] then current else Fold(h, h(StepInput(current, proof[0], i)), proof[1..], i / 2)
  }

  // ---------------------------------------------------------------------------
  // The functions of the source

  function MerkleRoot(h: Sha3, leaves: seq<Bytes>): Bytes
  {
    if leaves == [] then h(EMPTY_LIST_SEED) else RootOf(h, LeafLevel(h, leaves))
  }

  function MerkleProof(h: Sha3, leaves: seq<Bytes>, index: nat): seq<Bytes>
  {
    if index >= |leaves| then [] else ProofOf(h, LeafLevel(h, leaves), index)
  }

  predicate Verify(h: Sha3, leaf: Bytes, proof: seq<Bytes>, index: nat, root: Bytes)
  {
    root != [] && Fold(h, h(LeafInput(leaf)), proof, index) == root
  }

  /** One pass over a level in chunks of two. */
  method HashPairs(h: Sha3, level: seq<Bytes>) returns (next: seq<Bytes>)
    ensures next == NextLevel(h, level)
  {
    next := [];
    var i := 0;
    while i < |level|
      invariant 0 <= i <= |level|
      invariant NextLevel(h, level) == next + NextLevel(h, level[i..])
    {
      if i + 1 < |level| {
        next := next + [h(NodeInput(level[i], level[i + 1]))];
        assert level[i..][2..] == level[i + 2..];
        i := i + 2;
      } else {
        next := next + [h(NodeInput(level[i], level[i]))];
        i := i + 1;
      }
    }
  }

  /** `merkle_root`. */
  method ComputeRoot(h: Sha3, leaves: seq<Bytes>) returns (root: Bytes)
    ensures root == MerkleRoot(h, leaves)
  {
    if leaves == [] {
      return h(EMPTY_LIST_SEED);
    }
    var level := LeafLevel(h, leaves);
    while |level| > 1
      invariant |level| > 0 && RootOf(h, level) == MerkleRoot(h, leaves)
      decreases |level|
    {
      level := HashPairs(h, level);
    }
    root := level[0];
  }

  /** `merkle_proof`. */
  method GenerateProof(h: Sha3, leaves: seq<Bytes>, index: nat) returns (proof: seq<Bytes>)
    ensures proof == MerkleProof(h, leaves, index)
  {
    if leaves == [] || index >= |leaves| {
      return [];
    }
    if |leaves| == 1 {
      return [];
    }
    proof := [];
    var level := LeafLevel(h, leaves);
    var current: nat := index;
    while |level| > 1
      invariant current < |level|
      invariant MerkleProof(h, leaves, index) == proof + ProofOf(h, level, current)
      decreases |level|
    {
      ghost var rest := ProofOf(h, NextLevel(h, level), current / 2);
      var sibling := level[Sibling(|level|, current)];
      assert ProofOf(h, level, current) == [sibling] + rest;
      assert proof + ([sibling] + rest) == (proof + [sibling]) + rest;
      proof := proof + [sibling];
      level := HashPairs(h, level);
      current := current / 2;
    }
  }

  /** `verify_merkle_proof`. */
  method VerifyProof(h: Sha3, leaf: Bytes, proof: seq<Bytes>, index: nat, root: Bytes) returns (ok: bool)
    ensures ok == Verify(h, leaf, proof, index, root)
  {
    if root == [] {
      return false;
    }
    var current := h(LeafInput(leaf));
    var position := index;
    for k := 0 to |proof|
      invariant Fold(h, h(LeafInput(leaf)), proof, index) == Fold(h, current, proof[k..], position)
    {
      current := h(StepInput(current, proof[k], position));
      assert proof[k..][1..] == proof[k + 1..];
      position := position / 2;
    }
    ok := current == root;
  }

  // ---------------------------------------------------------------------------
  // Completeness

  /** Folding a node with its sibling hashes exactly what the level above hashed. */
  lemma StepIsPair(level: seq<Bytes>, i: nat)
    requires i < |level|
    ensures StepInput(level[i], level[Sibling(|level|, i)], i) == PairInput(level, i / 2)
  {
    if i % 2 == 0 { assert 2 * (i / 2) == i; } else { assert 2 * (i / 2) == i - 1; }
  }

  lemma {:induction false} ProofFolds(h: Sha3, level: seq<Bytes>, i: nat)
    requires i < |level|
    ensures Fold(h, level[i], ProofOf(h, level, i), i) == RootOf(h, level)
    decreases |level|
  {
    if |level| > 1 {
      StepIsPair(level, i);
      NextLevelAt(h, level, i / 2);
      ProofFolds(h, NextLevel(h, level), i / 2);
      assert ProofOf(h, level, i)[1..] == ProofOf(h, NextLevel(h, level), i / 2);
    }
  }

  /** Every node of a level is a digest. */
  ghost predicate Digests(level: seq<Bytes>)
  {
    forall i :: 0 <= i < |level| ==> |level[i]| == 32
  }

  lemma LeafLevelDigests(h: Sha3, leaves: seq<Bytes>)
    requires Digest32(h)
    ensures Digests(LeafLevel(h, leaves))
  {
    forall i | 0 <= i < |leaves|
      ensures |LeafLevel(h, leaves)[i]| == 32
    { assert LeafLevel(h, leaves)[i] == h(LeafInput(leaves[i])); }
  }

  lemma NextLevelDigests(h: Sha3, level: seq<Bytes>)
    requires Digest32(h)
    ensures Digests(NextLevel(h, level))
  {
    forall i | 0 <= i < |NextLevel(h, level)|
      ensures |NextLevel(h, level)[i]| == 32
    { NextLevelAt(h, level, i); }
  }

  lemma {:induction false} RootIsDigest(h: Sha3, level: seq<Bytes>)
    requires Digest32(h)
    requires |level| > 0 && Digests(level)
    ensures |RootOf(h, level)| == 32
    decreases |level|
  {
    if |level| > 1 {
      NextLevelDigests(h, level);
      RootIsDigest(h, NextLevel(h, level));
    }
  }

  /** Round trip: every generated proof verifies, for every list length and position. */
  lemma GeneratedProofVerifies(h: Sha3, leaves: seq<Bytes>, i: nat)
    requires Digest32(h)
    requires i < |leaves|
    ensures Verify(h, leaves[i], MerkleProof(h, leaves, i), i, MerkleRoot(h, leaves))
  {
    ProofFolds(h, LeafLevel(h, leaves), i);
    LeafLevelDigests(h, leaves);
    RootIsDigest(h, LeafLevel(h, leaves));
  }

  // ---------------------------------------------------------------------------
  // The strings a computation hashes

  ghost function PairInputs(level: seq<Bytes>): set<Bytes>
  {
    set i | 0 <= i < (|level| + 1) / 2 :: PairInput(level, i)
  }

  ghost function LeafInputs(leaves: seq<Bytes>): set<Bytes>
  {
    set i | 0 <= i < |leaves| :: LeafInput(leaves[i])
  }

  ghost function LevelInputs(h: Sha3, level: seq<Bytes>): set<Bytes>
    requires |level| > 0
    decreases |level|
  {
    if |level| == 1 then {} else PairInputs(level) + LevelInputs(h, NextLevel(h, level))
  }

  /** Everything `merkle_root` hashes. */
  ghost function RootInputs(h: Sha3, leaves: seq<Bytes>): set<Bytes>
  {
    if leaves == [] then {EMPTY_LIST_SEED} else LeafInputs(leaves) + LevelInputs(h, LeafLevel(h, leaves))
  }

  ghost function FoldInputs(h: Sha3, current: Bytes, proof: seq<Bytes>, i: nat): set<Bytes>
    decreases |proof|
  {
    if proof == [] then {}
    else
      var x := StepInput(current, proof[0], i);
      {x} + FoldInputs(h, h(x), proof[1..], i / 2)
  }

  /** Everything `verify_merkle_proof` hashes. */
  ghost function VerifyInputs(h: Sha3, leaf: Bytes, proof: seq<Bytes>, i: nat): set<Bytes>
  {
    {LeafInput(leaf)} + FoldInputs(h, h(LeafInput(leaf)), proof, i)
  }
}
