/**
The commitments byte by byte: which strings the Merkle tree, the sparse trie and the two state
roots hash, in which order and with which prefixes (`src/crypto/hash.rs`, `src/trie/mod.rs`,
`src/core/state_root.rs`).
*/
module CommitmentShapes {
  import opened Common
  import opened Hashing
  import opened Sorting
  import opened StateRoot
  import M = Merkle
  import T = SparseTrie
  import SP = StateProof
  import V6 = StateRootV6
  import LC = LeafConfusion

  // ---------------------------------------------------------------------------
  // The Merkle tree

  /** Leaves are hashed after a zero byte, nodes after a one byte, left before right; the last of an odd level is taken twice, and no leaves at all give the digest of "empty". */
  lemma SmallMerkleRoots(h: Sha3, a: Bytes, b: Bytes, c: Bytes)
    ensures M.MerkleRoot(h, []) == h([0x65, 0x6d, 0x70, 0x74, 0x79])
    ensures M.MerkleRoot(h, [a]) == h([0x00] + a)
    ensures M.MerkleRoot(h, [a, b]) == h([0x01] + h([0x00] + a) + h([0x00] + b))
    ensures M.MerkleRoot(h, [a, b, c])
         == h([0x01] + h([0x01] + h([0x00] + a) + h([0x00] + b)) + h([0x01] + h([0x00] + c) + h([0x00] + c)))
  {
    var x, y, z := h([0x00] + a), h([0x00] + b), h([0x00] + c);
    assert M.LeafInput(a) == [0x00] + a && M.LeafInput(b) == [0x00] + b && M.LeafInput(c) == [0x00] + c;
    assert M.LeafLevel(h, [a]) == [x] && M.LeafLevel(h, [a, b]) == [x, y] && M.LeafLevel(h, [a, b, c]) == [x, y, z];
    TwoNodes(h, x, y);
    assert [x, y, z][2..] == [z];
    var u, v := h([0x01] + x + y), h([0x01] + z + z);
    assert M.NextLevel(h, [z]) == [v];
    assert M.NextLevel(h, [x, y, z]) == [u] + [v] == [u, v];
    TwoNodes(h, u, v);
  }

  lemma TwoNodes(h: Sha3, x: Bytes, y: Bytes)
    ensures M.NextLevel(h, [x, y]) == [h([0x01] + x + y)]
    ensures M.RootOf(h, [x, y]) == h([0x01] + x + y)
  {
    assert [x, y][2..] == [];
    assert [h([0x01] + x + y)] + [] == [h([0x01] + x + y)];
  }

  /** There is no proof for a position outside the list, and the proof of an only leaf is empty. */
  lemma NoProofOutside(h: Sha3, leaves: seq<Bytes>, i: nat)
    requires i >= |leaves| || |leaves| == 1
    ensures M.MerkleProof(h, leaves, i) == []
  {
  }

  // ---------------------------------------------------------------------------
  // The sparse trie

  /** Bit 0 of a key is the highest bit of its first byte. */
  lemma BitsHighFirst(b: bv8)
    ensures T.ByteBit(b, 0) <==> b & 0x80 != 0
    ensures T.ByteBit(b, 1) <==> b & 0x40 != 0
    ensures T.ByteBit(b, 2) <==> b & 0x20 != 0
    ensures T.ByteBit(b, 3) <==> b & 0x10 != 0
    ensures T.ByteBit(b, 4) <==> b & 0x08 != 0
    ensures T.ByteBit(b, 5) <==> b & 0x04 != 0
    ensures T.ByteBit(b, 6) <==> b & 0x02 != 0
    ensures T.ByteBit(b, 7) <==> b & 0x01 != 0
  {
  }

  /** The bytes of "curs3d-smt-node" and "curs3d-smt-leaf" after their length. */
  function NodeTag(): Bytes
  {
    [15, 0, 0, 0] + [0x63, 0x75, 0x72, 0x73, 0x33, 0x64, 0x2d, 0x73, 0x6d, 0x74, 0x2d, 0x6e, 0x6f, 0x64, 0x65]
  }

  function LeafTag(): Bytes
  {
    [15, 0, 0, 0] + [0x63, 0x75, 0x72, 0x73, 0x33, 0x64, 0x2d, 0x73, 0x6d, 0x74, 0x2d, 0x6c, 0x65, 0x61, 0x66]
  }

  lemma TrieInputs(x: Bytes, y: Bytes)
    ensures T.NodeInput(x, y) == NodeTag() + x + y && T.LeafInput(x, y) == LeafTag() + x + y
  {
    ConcatTwo(x, y);
    Tags();
    assert NodeTag() + (x + y) == NodeTag() + x + y && LeafTag() + (x + y) == LeafTag() + x + y;
  }

  lemma Tags()
    ensures DomainPrefix(T.NODE_DOMAIN) == NodeTag() && DomainPrefix(T.LEAF_DOMAIN) == LeafTag()
  {
    TagOf(T.NODE_DOMAIN);
    TagOf(T.LEAF_DOMAIN);
  }

  lemma TagOf(domain: Bytes)
    requires |domain| == 15
    ensures DomainPrefix(domain) == [15, 0, 0, 0] + domain
  {
    Fifteen();
  }

  lemma Fifteen()
    ensures LittleEndian(15, 4) == [15, 0, 0, 0]
  {
    assert LittleEndian(0, 1) == [0] && LittleEndian(0, 2) == [0, 0] && LittleEndian(0, 3) == [0, 0, 0];
  }

  /** The root below a prefix of key bits: a constant where there is no key, the tagged key and value at full depth, and otherwise the tagged roots below the prefix followed by 0 and by 1, in this order. */
  lemma TrieShape(h: Sha3, leaves: T.Leaves, prefix: seq<bool>)
    requires T.Keyed(leaves) && |prefix| <= 256
    ensures (forall k :: k in leaves ==> !(prefix <= T.Bits(k))) ==>
              T.SubRoot(h, leaves, prefix)
              == h([0x63, 0x75, 0x72, 0x73, 0x33, 0x64, 0x2d, 0x73, 0x6d, 0x74, 0x2d, 0x65, 0x6d, 0x70, 0x74, 0x79])
    ensures forall k :: k in leaves && T.Bits(k) == prefix ==>
              T.SubRoot(h, leaves, prefix) == h(LeafTag() + k + leaves[k])
    ensures |prefix| < 256 && (exists k :: k in leaves && prefix <= T.Bits(k)) ==>
              T.SubRoot(h, leaves, prefix)
              == h(NodeTag() + T.SubRoot(h, leaves, prefix + [false]) + T.SubRoot(h, leaves, prefix + [true]))
  {
    if |prefix| < 256 {
      TrieInputs(T.SubRoot(h, leaves, prefix + [false]), T.SubRoot(h, leaves, prefix + [true]));
    }
    forall k | k in leaves && T.Bits(k) == prefix
      ensures T.SubRoot(h, leaves, prefix) == h(LeafTag() + k + leaves[k])
    { LeafShape(h, leaves, k); }
  }

  lemma LeafShape(h: Sha3, leaves: T.Leaves, k: Bytes)
    requires T.Keyed(leaves) && k in leaves
    ensures T.SubRoot(h, leaves, T.Bits(k)) == h(LeafTag() + k + leaves[k])
  {
    TrieInputs(k, leaves[k]);
    forall j | j in leaves && T.Bits(k) <= T.Bits(j)
      ensures j == k
    { T.BitsInjective(j, k); }
  }

  // ---------------------------------------------------------------------------
  // State roots

  /** The empty state has the digest of "curs3d-empty-state"; one account and one contract are two leaves, the account first. */
  lemma SmallStateRoots(c: Codec, h: Sha3, a: Bytes, s: AccountState, b: Bytes, x: ContractState)
    ensures RootV5(c, h, map[], map[])
         == h([0x63, 0x75, 0x72, 0x73, 0x33, 0x64, 0x2d, 0x65, 0x6d, 0x70, 0x74, 0x79, 0x2d, 0x73, 0x74, 0x61, 0x74, 0x65])
    ensures RootV5(c, h, map[a := s], map[]) == h([0x00] + h(c.account(a, s)))
    ensures RootV5(c, h, map[a := s], map[b := x])
         == h([0x01] + h([0x00] + h(c.account(a, s)))
              + h([0x00] + h(c.contract(b, CodeHash(h, x), x.owner, StorageRoot(c, h, x.storage)))))
  {
    var one: Accounts := map[a := s];
    var other: Contracts := map[b := x];
    assert one.Keys == {a} && other.Keys == {b};
    LC.OneKey(a);
    LC.OneKey(b);
    LC.OneAccountLeaf(c, h, a, s);
    var p, q := h(c.account(a, s)), h(ContractInput(c, h, b, x));
    assert AccountLeaves(c, h, one) == [p] && ContractLeaves(c, h, other) == [q];
    assert StateLeaves(c, h, one, other) == [p, q];
    SmallMerkleRoots(h, p, q, q);
  }

  /** Accounts are listed by address: of two, the lexicographically smaller comes first. */
  lemma AccountsByAddress(c: Codec, h: Sha3, a: Bytes, s: AccountState, b: Bytes, t: AccountState)
    requires a != b && LexLeq(a, b)
    ensures RootV5(c, h, map[a := s, b := t], map[])
         == h([0x01] + h([0x00] + h(c.account(a, s))) + h([0x00] + h(c.account(b, t))))
  {
    var two: Accounts := map[a := s, b := t];
    var none: Contracts := map[];
    assert two.Keys == {a, b} && none.Keys == {};
    assert Enumerates([a, b], {a, b});
    EnumerationUnique([a, b], SortedKeys({a, b}), {a, b});
    LC.NoKey();
    var p, q := h(c.account(a, s)), h(c.account(b, t));
    assert AccountLeaves(c, h, two) == [p, q] && ContractLeaves(c, h, none) == [];
    assert StateLeaves(c, h, two, none) == [p, q];
    SmallMerkleRoots(h, p, q, q);
  }

  /** A contract without a stored code hash commits to the digest of its code, exactly like one that stores that digest; a stored hash stands for itself, whatever the code. */
  lemma CodeIsCommitted(c: Codec, h: Sha3, address: Bytes, x: ContractState)
    requires Digest32(h)
    ensures x.codeHash == [] ==>
              ContractInput(c, h, address, x) == c.contract(address, h(x.code), x.owner, StorageRoot(c, h, x.storage))
              && ContractInput(c, h, address, x) == ContractInput(c, h, address, x.(codeHash := h(x.code)))
    ensures x.codeHash != [] ==>
              ContractInput(c, h, address, x) == c.contract(address, x.codeHash, x.owner, StorageRoot(c, h, x.storage))
  {
  }

  /** What the v6 trie holds: each account's leaf under the digest of a zero byte and its address, each contract's under that of a one byte and its address, and nothing else. */
  lemma V6TrieContents(c: Codec, h: Sha3, accounts: Accounts, contracts: Contracts, all: set<Bytes>)
    requires Digest32(h) && V6.CollisionFree(h, all) && V6.KeyInputs(accounts, contracts) <= all
    ensures var m := V6.V6Leaves(c, h, accounts, contracts);
            && (forall a :: a in accounts ==> h([0x00] + a) in m && m[h([0x00] + a)] == h(c.account(a, accounts[a])))
            && (forall a :: a in contracts ==>
                  var x := contracts[a];
                  h([0x01] + a) in m
                  && m[h([0x01] + a)] == h(c.contract(a, CodeHash(h, x), x.owner, StorageRoot(c, h, x.storage))))
            && (forall k :: k in m ==>
                  (exists a :: a in accounts && k == h([0x00] + a)) || (exists a :: a in contracts && k == h([0x01] + a)))
  {
    var m := V6.V6Leaves(c, h, accounts, contracts);
    V6.TrieHoldsState(c, h, accounts, contracts, all);
    forall a | a in accounts
      ensures h([0x00] + a) in m && m[h([0x00] + a)] == h(c.account(a, accounts[a]))
    { assert V6.HasAccount(c, h, accounts, m, a); }
    forall a | a in contracts
      ensures h([0x01] + a) in m && m[h([0x01] + a)] == h(ContractInput(c, h, a, contracts[a]))
    { assert V6.HasContract(c, h, contracts, m, a); }
    forall k | k in m
      ensures (exists a :: a in accounts && k == h([0x00] + a)) || (exists a :: a in contracts && k == h([0x01] + a))
    {
      assert V6.KeyOfState(h, accounts, contracts, k);
      if a :| a in accounts && k == h(V6.AccountKeyInput(a)) {
        assert k == h([0x00] + a);
      } else {
        var b :| b in contracts && k == h(V6.ContractKeyInput(b));
        assert k == h([0x01] + b);
      }
    }
  }
}
