/**
What an accepted Merkle proof and a pair of equal Merkle roots mean. Every statement ends in "or
a collision": a string hashed to build the root and a different string hashed on the other side
have the same digest.
*/
module MerkleSoundness {
  import opened Common
  import opened Hashing
  import opened Merkle

  /** Levels above a list of `n` nodes. */
  function Height(n: nat): nat
  {
    if n <= 1 then 0 else 1 + Height((n + 1) / 2)
  }

  /**
  The position an index denotes among `n` nodes when the last node of an odd level stands for its
  missing neighbour too.
  */
  function Slot(n: nat, i: nat): (s: nat)
    requires n > 0
    ensures s < n
    decreases n
  {
    if n == 1 then 0 else Min(2 * Slot((n + 1) / 2, i / 2) + i % 2, n - 1)
  }

  /** An index inside the list denotes itself. */
  lemma {:induction false} SlotInRange(n: nat, i: nat)
    requires i < n
    ensures Slot(n, i) == i
    decreases n
  {
    if n > 1 {
      SlotInRange((n + 1) / 2, i / 2);
      assert 2 * (i / 2) + i % 2 == i;
    }
  }

  // ---------------------------------------------------------------------------
  // Proofs of the right length

  /** The node a step takes from a pair: the left one at an even index, the right one at an odd index. */
  lemma PairSides(level: seq<Bytes>, q: nat, current: Bytes, sibling: Bytes, i: nat)
    requires 2 * q < |level| && Digests(level) && |current| == 32
    requires StepInput(current, sibling, i) == PairInput(level, q)
    ensures current == level[Min(2 * q + i % 2, |level| - 1)]
    ensures sibling == level[Min(2 * q + (1 - i % 2), |level| - 1)]
  {
    var left, right := level[2 * q], level[Min(2 * q + 1, |level| - 1)];
    var x := PairInput(level, q);
    assert x == [NODE_PREFIX] + left + right && |x| == 65;
    assert x[1..33] == left && x[33..] == right;
    if i % 2 == 0 {
      assert x == [NODE_PREFIX] + current + sibling;
      assert x[1..33] == current && x[33..] == sibling;
    } else {
      assert x == [NODE_PREFIX] + sibling + current;
      assert |sibling| == 32;
      assert x[1..33] == sibling && x[33..] == current;
    }
  }

  lemma PairInputsOf(level: seq<Bytes>, q: nat)
    requires 2 * q < |level|
    ensures PairInput(level, q) in PairInputs(level)
  {
    assert q < (|level| + 1) / 2;
  }

  /** One step of a matching proof: if it reached the right node above, it left from the right node here. */
  lemma StepSound(h: Sha3, level: seq<Bytes>, current: Bytes, sibling: Bytes, i: nat, q: nat)
    requires |level| > 1 && Digests(level) && |current| == 32 && 2 * q < |level|
    requires h(StepInput(current, sibling, i)) == NextLevel(h, level)[q]
    ensures current == level[Min(2 * q + i % 2, |level| - 1)]
            || Collision(h, PairInputs(level), {StepInput(current, sibling, i)})
  {
    var x := StepInput(current, sibling, i);
    NextLevelAt(h, level, q);
    PairInputsOf(level, q);
    SameDigest(h, PairInput(level, q), x, PairInputs(level), {x});
    if x == PairInput(level, q) { PairSides(level, q, current, sibling, i); }
  }

  lemma {:induction false} FoldSound(h: Sha3, level: seq<Bytes>, current: Bytes, proof: seq<Bytes>, i: nat)
    requires Digest32(h)
    requires |level| > 0 && Digests(level) && |current| == 32 && |proof| == Height(|level|)
    requires Fold(h, current, proof, i) == RootOf(h, level)
    ensures current == level[Slot(|level|, i)] || Collision(h, LevelInputs(h, level), FoldInputs(h, current, proof, i))
    decreases |level|
  {
    if |level| == 1 {
      assert proof == [] && Slot(1, i) == 0;
    } else {
      var next, x := NextLevel(h, level), StepInput(current, proof[0], i);
      var mine, theirs := LevelInputs(h, level), FoldInputs(h, current, proof, i);
      NextLevelDigests(h, level);
      FoldSound(h, next, h(x), proof[1..], i / 2);
      var q := Slot(|next|, i / 2);
      assert Slot(|level|, i) == Min(2 * q + i % 2, |level| - 1);
      if h(x) == next[q] {
        StepSound(h, level, current, proof[0], i, q);
        if Collision(h, PairInputs(level), {x}) { CollisionGrows(h, PairInputs(level), {x}, mine, theirs); }
      } else {
        CollisionGrows(h, LevelInputs(h, next), FoldInputs(h, h(x), proof[1..], i / 2), mine, theirs);
      }
    }
  }

  // ---------------------------------------------------------------------------
  // Proofs of the wrong length

  /** The level `t` steps above. */
  function Up(h: Sha3, level: seq<Bytes>, t: nat): seq<Bytes>
    decreases t
  {
    if t == 0 then level else NextLevel(h, Up(h, level, t - 1))
  }

  lemma {:induction false} UpFront(h: Sha3, level: seq<Bytes>, t: nat)
    ensures Up(h, level, t + 1) == Up(h, NextLevel(h, level), t)
  {
    if t > 0 { UpFront(h, level, t - 1); }
  }

  lemma {:induction false} UpRoot(h: Sha3, level: seq<Bytes>)
    requires |level| > 0
    ensures Up(h, level, Height(|level|)) == [RootOf(h, level)]
    decreases |level|
  {
    if |level| > 1 {
      UpFront(h, level, Height(|level|) - 1);
      UpRoot(h, NextLevel(h, level));
    }
  }

  /** Below the root a level has at least two nodes, all digests of pairs that `merkle_root` hashed. */
  lemma {:induction false} UpInputs(h: Sha3, level: seq<Bytes>, t: nat)
    requires |level| > 0 && t < Height(|level|)
    ensures |Up(h, level, t)| > 1 && PairInputs(Up(h, level, t)) <= LevelInputs(h, level)
    decreases t
  {
    if t > 0 {
      UpFront(h, level, t - 1);
      UpInputs(h, NextLevel(h, level), t - 1);
    }
  }

  lemma {:induction false} UpDigests(h: Sha3, level: seq<Bytes>, t: nat)
    requires Digest32(h)
    requires Digests(level)
    ensures Digests(Up(h, level, t))
  {
    if t > 0 { NextLevelDigests(h, Up(h, level, t - 1)); }
  }

  /** The last step of a fold, seen from its result. */
  lemma {:induction false} FoldLast(h: Sha3, current: Bytes, proof: seq<Bytes>, i: nat) returns (k: nat)
    requires proof != []
    ensures var before := Fold(h, current, proof[..|proof| - 1], i);
            var x := StepInput(before, proof[|proof| - 1], k);
            && Fold(h, current, proof, i) == h(x)
            && x in FoldInputs(h, current, proof, i)
            && FoldInputs(h, current, proof[..|proof| - 1], i) <= FoldInputs(h, current, proof, i)
    decreases |proof|
  {
    if |proof| == 1 {
      k := i;
    } else {
      var x := StepInput(current, proof[0], i);
      k := FoldLast(h, h(x), proof[1..], i / 2);
      assert proof[1..][..|proof| - 2] == proof[..|proof| - 1][1..];
    }
  }

  lemma {:induction false} FoldIsDigest(h: Sha3, current: Bytes, proof: seq<Bytes>, i: nat)
    requires Digest32(h)
    requires |current| == 32
    ensures |Fold(h, current, proof, i)| == 32
    decreases |proof|
  {
    if proof != [] { FoldIsDigest(h, h(StepInput(current, proof[0], i)), proof[1..], i / 2); }
  }

  /** A fold that ends in a node of the level above came from a node of this level, or there is a collision. */
  lemma LastStepSound(h: Sha3, below: seq<Bytes>, q: nat, start: Bytes, proof: seq<Bytes>, i: nat)
    returns (collided: bool, q': nat)
    requires Digest32(h)
    requires Digests(below) && |start| == 32 && proof != [] && 2 * q < |below|
    requires Fold(h, start, proof, i) == NextLevel(h, below)[q]
    ensures collided ==> Collision(h, PairInputs(below), FoldInputs(h, start, proof, i))
    ensures !collided ==> q' < |below| && Fold(h, start, proof[..|proof| - 1], i) == below[q']
  {
    var before := Fold(h, start, proof[..|proof| - 1], i);
    FoldIsDigest(h, start, proof[..|proof| - 1], i);
    NextLevelAt(h, below, q);
    PairInputsOf(below, q);
    var k := FoldLast(h, start, proof, i);
    var x := StepInput(before, proof[|proof| - 1], k);
    collided, q' := x != PairInput(below, q), 0;
    if collided {
      SameDigest(h, PairInput(below, q), x, PairInputs(below), FoldInputs(h, start, proof, i));
    } else {
      PairSides(below, q, before, proof[|proof| - 1], k);
      q' := Min(2 * q + k % 2, |below| - 1);
    }
  }

  /** Folding a leaf digest the wrong number of times reaches no node of the tree without a collision. */
  lemma {:induction false} WrongLengthCollides(
    h: Sha3, leaves: seq<Bytes>, t: nat, q: nat, leaf: Bytes, proof: seq<Bytes>, i: nat)
    requires Digest32(h)
    requires leaves != [] && t <= Height(|leaves|) && |proof| != t
    requires q < |Up(h, LeafLevel(h, leaves), t)|
    requires Fold(h, h(LeafInput(leaf)), proof, i) == Up(h, LeafLevel(h, leaves), t)[q]
    ensures Collision(h, RootInputs(h, leaves), VerifyInputs(h, leaf, proof, i))
    decreases |proof|
  {
    var level, start := LeafLevel(h, leaves), h(LeafInput(leaf));
    if t == 0 {
      LeafLevelReached(h, leaves, q, leaf, proof, i);
    } else {
      InnerLevelReached(h, leaves, t - 1, q, leaf, proof, i);
    }
  }

  lemma LeafLevelReached(h: Sha3, leaves: seq<Bytes>, q: nat, leaf: Bytes, proof: seq<Bytes>, i: nat)
    requires q < |leaves| && proof != []
    requires Fold(h, h(LeafInput(leaf)), proof, i) == h(LeafInput(leaves[q]))
    ensures Collision(h, RootInputs(h, leaves), VerifyInputs(h, leaf, proof, i))
  {
    var start := h(LeafInput(leaf));
    var k := FoldLast(h, start, proof, i);
    var x := StepInput(Fold(h, start, proof[..|proof| - 1], i), proof[|proof| - 1], k);
    LeafIsNotNode(leaves[q], x);
    SameDigest(h, LeafInput(leaves[q]), x, RootInputs(h, leaves), VerifyInputs(h, leaf, proof, i));
  }

  lemma InnerLevelReached(h: Sha3, leaves: seq<Bytes>, t: nat, q: nat, leaf: Bytes, proof: seq<Bytes>, i: nat)
    requires Digest32(h)
    requires leaves != [] && t < Height(|leaves|) && |proof| != t + 1
    requires q < |NextLevel(h, Up(h, LeafLevel(h, leaves), t))|
    requires Fold(h, h(LeafInput(leaf)), proof, i) == NextLevel(h, Up(h, LeafLevel(h, leaves), t))[q]
    ensures Collision(h, RootInputs(h, leaves), VerifyInputs(h, leaf, proof, i))
    decreases |proof|, 0
  {
    var level, start := LeafLevel(h, leaves), h(LeafInput(leaf));
    var mine, theirs := RootInputs(h, leaves), VerifyInputs(h, leaf, proof, i);
    var below := Up(h, level, t);
    UpInputs(h, level, t);
    LeafLevelDigests(h, leaves);
    UpDigests(h, level, t);
    if proof == [] {
      NextLevelAt(h, below, q);
      PairInputsOf(below, q);
      LeafIsNotNode(leaf, PairInput(below, q));
      SameDigest(h, PairInput(below, q), LeafInput(leaf), mine, theirs);
    } else {
      var collided, q' := LastStepSound(h, below, q, start, proof, i);
      if collided {
        CollisionGrows(h, PairInputs(below), FoldInputs(h, start, proof, i), mine, theirs);
      } else {
        var init := proof[..|proof| - 1];
        WrongLengthCollides(h, leaves, t, q', leaf, init, i);
        var _ := FoldLast(h, start, proof, i);
        CollisionGrows(h, mine, VerifyInputs(h, leaf, init, i), mine, theirs);
      }
    }
  }

  lemma LeafIsNotNode(leaf: Bytes, node: Bytes)
    requires node != [] && node[0] == NODE_PREFIX
    ensures LeafInput(leaf) != node
  {
    assert LeafInput(leaf)[0] == LEAF_PREFIX;
  }

  // ---------------------------------------------------------------------------
  // Main results

  /**
  Soundness, for any proof of any length with siblings of any length and any index: what a
  verifier accepts against the root of a list is the leaf the index denotes, or the verifier and
  the builder of the root hashed two different strings to one digest. No leaf is accepted
  against the root of the empty list.
  */
  lemma AcceptedLeafIsInTree(h: Sha3, leaves: seq<Bytes>, leaf: Bytes, proof: seq<Bytes>, index: nat)
    requires Digest32(h)
    requires Verify(h, leaf, proof, index, MerkleRoot(h, leaves))
    ensures (leaves != [] && leaf == leaves[Slot(|leaves|, index)])
            || Collision(h, RootInputs(h, leaves), VerifyInputs(h, leaf, proof, index))
  {
    var mine, theirs, start := RootInputs(h, leaves), VerifyInputs(h, leaf, proof, index), h(LeafInput(leaf));
    if leaves == [] {
      EmptyRootAcceptsNothing(h, leaf, proof, index);
    } else {
      var level := LeafLevel(h, leaves);
      LeafLevelDigests(h, leaves);
      if |proof| == Height(|leaves|) {
        FoldSound(h, level, start, proof, index);
        var s := Slot(|leaves|, index);
        if start == level[s] {
          SameDigest(h, LeafInput(leaves[s]), LeafInput(leaf), mine, theirs);
          assert LeafInput(leaf)[1..] == leaf && LeafInput(leaves[s])[1..] == leaves[s];
        } else {
          CollisionGrows(h, LevelInputs(h, level), FoldInputs(h, start, proof, index), mine, theirs);
        }
      } else {
        UpRoot(h, level);
        WrongLengthCollides(h, leaves, Height(|leaves|), 0, leaf, proof, index);
      }
    }
  }

  /** A digest of a string that is neither a leaf nor a node, taken as a root, accepts nothing. */
  lemma SeedRootAcceptsNothing(h: Sha3, seed: Bytes, leaf: Bytes, proof: seq<Bytes>, index: nat)
    requires seed != [] && seed[0] != LEAF_PREFIX && seed[0] != NODE_PREFIX
    requires Verify(h, leaf, proof, index, h(seed))
    ensures Collision(h, {seed}, VerifyInputs(h, leaf, proof, index))
  {
    var start := h(LeafInput(leaf));
    if proof == [] {
      assert LeafInput(leaf)[0] == LEAF_PREFIX;
      SameDigest(h, seed, LeafInput(leaf), {seed}, VerifyInputs(h, leaf, proof, index));
    } else {
      var k := FoldLast(h, start, proof, index);
      var x := StepInput(Fold(h, start, proof[..|proof| - 1], index), proof[|proof| - 1], k);
      assert x[0] == NODE_PREFIX;
      SameDigest(h, seed, x, {seed}, VerifyInputs(h, leaf, proof, index));
    }
  }

  lemma EmptyRootAcceptsNothing(h: Sha3, leaf: Bytes, proof: seq<Bytes>, index: nat)
    requires Verify(h, leaf, proof, index, MerkleRoot(h, []))
    ensures Collision(h, RootInputs(h, []), VerifyInputs(h, leaf, proof, index))
  {
    SeedRootAcceptsNothing(h, EMPTY_LIST_SEED, leaf, proof, index);
  }

  /** At an index inside the list, soundness says the leaf is the one at that index. */
  lemma AcceptedLeafIsAtIndex(h: Sha3, leaves: seq<Bytes>, leaf: Bytes, proof: seq<Bytes>, index: nat)
    requires Digest32(h)
    requires index < |leaves| && Verify(h, leaf, proof, index, MerkleRoot(h, leaves))
    ensures leaf == leaves[index] || Collision(h, RootInputs(h, leaves), VerifyInputs(h, leaf, proof, index))
  {
    AcceptedLeafIsInTree(h, leaves, leaf, proof, index);
    SlotInRange(|leaves|, index);
  }

  // ---------------------------------------------------------------------------
  // Equal roots

  /** The siblings of the node an index denotes, whether the index is inside the list or not. */
  function ProofAt(h: Sha3, level: seq<Bytes>, i: nat): (proof: seq<Bytes>)
    requires |level| > 0
    ensures |proof| == Height(|level|)
    decreases |level|
  {
    if |level| == 1 then []
    else
      var q := Slot((|level| + 1) / 2, i / 2);
      [level[Min(2 * q + (1 - i % 2), |level| - 1)]] + ProofAt(h, NextLevel(h, level), i / 2)
  }

  lemma SlotStep(level: seq<Bytes>, i: nat, q: nat)
    requires |level| > 1 && q == Slot((|level| + 1) / 2, i / 2)
    ensures 2 * q < |level|
    ensures StepInput(level[Slot(|level|, i)], level[Min(2 * q + (1 - i % 2), |level| - 1)], i) == PairInput(level, q)
  {
    assert Slot(|level|, i) == Min(2 * q + i % 2, |level| - 1);
    if i % 2 == 0 {
      assert Slot(|level|, i) == 2 * q;
    } else {
      assert Min(2 * q + (1 - i % 2), |level| - 1) == 2 * q;
    }
  }

  /** Every index of the padded tree has a proof, hashing only strings the root hashed. */
  lemma {:induction false} ProofAtFolds(h: Sha3, level: seq<Bytes>, i: nat)
    requires |level| > 0
    ensures Fold(h, level[Slot(|level|, i)], ProofAt(h, level, i), i) == RootOf(h, level)
    ensures FoldInputs(h, level[Slot(|level|, i)], ProofAt(h, level, i), i) <= LevelInputs(h, level)
    decreases |level|
  {
    if |level| > 1 {
      var next, q := NextLevel(h, level), Slot((|level| + 1) / 2, i / 2);
      SlotStep(level, i, q);
      var sibling, above := level[Min(2 * q + (1 - i % 2), |level| - 1)], ProofAt(h, next, i / 2);
      NextLevelAt(h, level, q);
      PairInputsOf(level, q);
      ProofAtFolds(h, next, i / 2);
      assert ProofAt(h, level, i) == [sibling] + above;
      assert ([sibling] + above)[1..] == above;
    }
  }

  /** The two lists give the same tree once odd levels are padded. */
  ghost predicate SameTree(a: seq<Bytes>, b: seq<Bytes>)
    requires a != [] && b != []
  {
    Height(|a|) == Height(|b|) && forall i: nat {:trigger SameSlot(a, b, i)} :: SameSlot(a, b, i)
  }

  ghost predicate SameSlot(a: seq<Bytes>, b: seq<Bytes>, i: nat)
    requires a != [] && b != []
  {
    a[Slot(|a|, i)] == b[Slot(|b|, i)]
  }

  lemma SamePairs(h: Sha3, a: seq<Bytes>, p: nat, b: seq<Bytes>, q: nat)
    requires 2 * p < |a| && 2 * q < |b|
    requires a[2 * p] == b[2 * q] && a[Min(2 * p + 1, |a| - 1)] == b[Min(2 * q + 1, |b| - 1)]
    ensures NextLevel(h, a)[p] == NextLevel(h, b)[q]
  {
    NextLevelAt(h, a, p);
    NextLevelAt(h, b, q);
  }

  lemma SameSlotAbove(h: Sha3, a: seq<Bytes>, b: seq<Bytes>, j: nat, left: nat, right: nat)
    requires |a| > 1 && |b| > 1 && SameSlot(a, b, left) && SameSlot(a, b, right)
    requires left / 2 == j && right / 2 == j && left % 2 == 0 && right % 2 == 1
    ensures SameSlot(NextLevel(h, a), NextLevel(h, b), j)
  {
    var p, q := Slot((|a| + 1) / 2, j), Slot((|b| + 1) / 2, j);
    assert Slot(|a|, left) == 2 * p && Slot(|b|, left) == 2 * q;
    assert Slot(|a|, right) == Min(2 * p + 1, |a| - 1) && Slot(|b|, right) == Min(2 * q + 1, |b| - 1);
    SamePairs(h, a, p, b, q);
  }

  lemma {:induction false} SameTreeSameRoot(h: Sha3, a: seq<Bytes>, b: seq<Bytes>)
    requires a != [] && b != [] && SameTree(a, b)
    ensures RootOf(h, a) == RootOf(h, b)
    decreases |a|
  {
    if |a| == 1 {
      assert SameSlot(a, b, 0);
    } else {
      forall j: nat
        ensures SameSlot(NextLevel(h, a), NextLevel(h, b), j)
      {
        assert SameSlot(a, b, 2 * j) && SameSlot(a, b, 2 * j + 1);
        SameSlotAbove(h, a, b, j, 2 * j, 2 * j + 1);
      }
      SameTreeSameRoot(h, NextLevel(h, a), NextLevel(h, b));
    }
  }

  /** When a tree is shared by leaves, it is shared by leaf digests too. */
  lemma SameLeafLevels(h: Sha3, a: seq<Bytes>, b: seq<Bytes>)
    requires a != [] && b != [] && SameTree(a, b)
    ensures SameTree(LeafLevel(h, a), LeafLevel(h, b))
  {
    forall i: nat
      ensures SameSlot(LeafLevel(h, a), LeafLevel(h, b), i)
    { assert SameSlot(a, b, i); }
  }

  /** An index of one list is accepted against the root of the other. */
  lemma SharedRootSharesSlot(h: Sha3, a: seq<Bytes>, b: seq<Bytes>, i: nat)
    requires Digest32(h)
    requires a != [] && b != [] && MerkleRoot(h, a) == MerkleRoot(h, b)
    ensures (Height(|a|) == Height(|b|) && a[Slot(|a|, i)] == b[Slot(|b|, i)])
            || Collision(h, RootInputs(h, b), RootInputs(h, a))
  {
    var level, leaf := LeafLevel(h, a), a[Slot(|a|, i)];
    var proof := ProofAt(h, level, i);
    ProofAtFolds(h, level, i);
    LeafLevelDigests(h, a);
    RootIsDigest(h, level);
    assert VerifyInputs(h, leaf, proof, i) <= RootInputs(h, a);
    AcceptedLeafIsInTree(h, b, leaf, proof, i);
    if Height(|a|) != Height(|b|) {
      UpRoot(h, LeafLevel(h, b));
      WrongLengthCollides(h, b, Height(|b|), 0, leaf, proof, i);
    }
    if Collision(h, RootInputs(h, b), VerifyInputs(h, leaf, proof, i)) {
      CollisionGrows(h, RootInputs(h, b), VerifyInputs(h, leaf, proof, i), RootInputs(h, b), RootInputs(h, a));
    }
  }

  /**
  Roots decide exactly the padded tree: lists with the same padded tree have the same root, and
  lists with the same root have the same padded tree or the two computations exhibit a collision.
  */
  lemma RootsDecideTree(h: Sha3, a: seq<Bytes>, b: seq<Bytes>)
    requires Digest32(h) && a != [] && b != []
    ensures SameTree(a, b) ==> MerkleRoot(h, a) == MerkleRoot(h, b)
    ensures MerkleRoot(h, a) == MerkleRoot(h, b) ==> SameTree(a, b) || Collision(h, RootInputs(h, b), RootInputs(h, a))
  {
    if SameTree(a, b) {
      SameLeafLevels(h, a, b);
      SameTreeSameRoot(h, LeafLevel(h, a), LeafLevel(h, b));
    }
    if MerkleRoot(h, a) == MerkleRoot(h, b) && !Collision(h, RootInputs(h, b), RootInputs(h, a)) {
      forall i: nat
        ensures Height(|a|) == Height(|b|) && SameSlot(a, b, i)
      { SharedRootSharesSlot(h, a, b, i); }
      assert SameSlot(a, b, 0);
    }
  }

  /** For lists of one length the padded tree is the list, so equal roots mean equal lists or a collision. */
  lemma EqualRootsEqualLists(h: Sha3, a: seq<Bytes>, b: seq<Bytes>)
    requires Digest32(h) && |a| == |b| && MerkleRoot(h, a) == MerkleRoot(h, b)
    ensures a == b || Collision(h, RootInputs(h, b), RootInputs(h, a))
  {
    if a != [] {
      RootsDecideTree(h, a, b);
      forall i | 0 <= i < |a|
        ensures a[i] == b[i] || Collision(h, RootInputs(h, b), RootInputs(h, a))
      {
        SlotInRange(|a|, i);
        assert SameTree(a, b) ==> SameSlot(a, b, i);
      }
    }
  }

  /** Across lengths equality fails: repeating the last leaf of an odd list keeps its root. */
  lemma RepeatedLastLeafKeepsRoot(h: Sha3, leaves: seq<Bytes>)
    requires Digest32(h) && |leaves| > 1 && |leaves| % 2 == 1
    ensures MerkleRoot(h, leaves + [leaves[|leaves| - 1]]) == MerkleRoot(h, leaves)
  {
    var n := |leaves|;
    var longer := leaves + [leaves[n - 1]];
    assert (n + 2) / 2 == (n + 1) / 2;
    forall i: nat
      ensures SameSlot(longer, leaves, i)
    { assert Slot(n + 1, i) == Slot(n, i) || (Slot(n + 1, i) == n && Slot(n, i) == n - 1); }
    RootsDecideTree(h, longer, leaves);
  }
}
