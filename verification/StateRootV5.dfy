/**
The v5 state root, the one in force (`compute_v5_merkle` of `src/core/state_root.rs`), determines
the state: two states with one root hold the same leaf encodings, and the same accounts and
contracts unless an account of one reads as a contract of the other, or hashing them collided.
*/
module StateRootV5 {
  import opened Common
  import opened Hashing
  import opened Sorting
  import opened StateRoot
  import M = Merkle
  import MS = MerkleSoundness
  import SP = StateProof
  import V6 = StateRootV6

  /** The encodings of all accounts and contracts. */
  ghost function Encodings(c: Codec, h: Sha3, accounts: Accounts, contracts: Contracts): set<Bytes>
  {
    SP.AccountInputs(c, accounts) + SP.ContractInputs(c, h, contracts)
  }

  /** Everything hashed on the way to a v5 root, code bytes aside. */
  ghost function V5Inputs(c: Codec, h: Sha3, accounts: Accounts, contracts: Contracts): set<Bytes>
  {
    SP.StateInputs(c, h, accounts, contracts) + V6.AllStorageInputs(c, h, contracts)
  }

  /** Every leaf of a list has a proof that hashes only what the root hashed. */
  lemma LeafProof(h: Sha3, leaves: seq<Bytes>, i: nat) returns (proof: seq<Bytes>)
    requires Digest32(h) && i < |leaves|
    ensures M.Verify(h, leaves[i], proof, i, M.MerkleRoot(h, leaves))
    ensures M.VerifyInputs(h, leaves[i], proof, i) <= M.RootInputs(h, leaves)
  {
    var level := M.LeafLevel(h, leaves);
    proof := MS.ProofAt(h, level, i);
    MS.ProofAtFolds(h, level, i);
    MS.SlotInRange(|leaves|, i);
    M.LeafLevelDigests(h, leaves);
    M.RootIsDigest(h, level);
  }

  lemma EncodingAt(c: Codec, h: Sha3, accounts: Accounts, contracts: Contracts, x: Bytes) returns (i: nat)
    requires x in Encodings(c, h, accounts, contracts)
    ensures i < |StateLeaves(c, h, accounts, contracts)| && StateLeaves(c, h, accounts, contracts)[i] == h(x)
    ensures RootV5(c, h, accounts, contracts) == M.MerkleRoot(h, StateLeaves(c, h, accounts, contracts))
  {
    var as_, cs := SortedKeys(accounts.Keys), SortedKeys(contracts.Keys);
    if x in SP.AccountInputs(c, accounts) {
      var a :| a in accounts && x == c.account(a, accounts[a]);
      assert a in as_;
      i :| 0 <= i < |as_| && as_[i] == a;
      SP.AccountLeafAt(c, h, accounts, contracts, i);
    } else {
      var a :| a in contracts && x == ContractInput(c, h, a, contracts[a]);
      assert a in cs;
      var j :| 0 <= j < |cs| && cs[j] == a;
      i := |as_| + j;
      SP.ContractLeafAt(c, h, accounts, contracts, j);
    }
  }

  /** An encoding of one state is one of any state with the same root. */
  lemma EncodingCarriesOver(
    c: Codec, h: Sha3, accounts: Accounts, contracts: Contracts, accounts': Accounts, contracts': Contracts,
    all: set<Bytes>, x: Bytes)
    requires Digest32(h) && V6.CollisionFree(h, all)
    requires SP.StateInputs(c, h, accounts, contracts) <= all && SP.StateInputs(c, h, accounts', contracts') <= all
    requires RootV5(c, h, accounts, contracts) == RootV5(c, h, accounts', contracts')
    requires x in Encodings(c, h, accounts, contracts)
    ensures x in Encodings(c, h, accounts', contracts')
  {
    var leaves := StateLeaves(c, h, accounts, contracts);
    var i := EncodingAt(c, h, accounts, contracts, x);
    var proof := LeafProof(h, leaves, i);
    assert x in SP.StateInputs(c, h, accounts, contracts);
    SP.AcceptedEncodingIsStored(c, h, x, proof, i, accounts', contracts');
    V6.NoCollisionWithin(h, all, SP.StateInputs(c, h, accounts', contracts'), {x} + M.VerifyInputs(h, h(x), proof, i));
  }

  /** Two states with one v5 root have the same set of leaf encodings, or hashing them collided. */
  lemma RootV5BindsEncodings(
    c: Codec, h: Sha3, accounts: Accounts, contracts: Contracts, accounts': Accounts, contracts': Contracts)
    requires Digest32(h) && RootV5(c, h, accounts, contracts) == RootV5(c, h, accounts', contracts')
    ensures var all := SP.StateInputs(c, h, accounts, contracts) + SP.StateInputs(c, h, accounts', contracts');
            Encodings(c, h, accounts, contracts) == Encodings(c, h, accounts', contracts') || Collision(h, all, all)
  {
    var all := SP.StateInputs(c, h, accounts, contracts) + SP.StateInputs(c, h, accounts', contracts');
    if V6.CollisionFree(h, all) {
      forall x | x in Encodings(c, h, accounts, contracts)
        ensures x in Encodings(c, h, accounts', contracts')
      { EncodingCarriesOver(c, h, accounts, contracts, accounts', contracts', all, x); }
      forall x | x in Encodings(c, h, accounts', contracts')
        ensures x in Encodings(c, h, accounts, contracts)
      { EncodingCarriesOver(c, h, accounts', contracts', accounts, contracts, all, x); }
    }
  }

  ghost predicate Empty(accounts: Accounts, contracts: Contracts)
  {
    accounts == map[] && contracts == map[]
  }

  lemma LeavesOfState(c: Codec, h: Sha3, accounts: Accounts, contracts: Contracts)
    ensures StateLeaves(c, h, accounts, contracts) == [] <==> Empty(accounts, contracts)
  {
    EnumerationSize(SortedKeys(accounts.Keys), accounts.Keys);
    EnumerationSize(SortedKeys(contracts.Keys), contracts.Keys);
  }

  /** Both states are empty, or their leaves give one tree once odd levels are padded. */
  ghost predicate SameCommitment(
    c: Codec, h: Sha3, accounts: Accounts, contracts: Contracts, accounts': Accounts, contracts': Contracts)
  {
    var a, b := StateLeaves(c, h, accounts, contracts), StateLeaves(c, h, accounts', contracts');
    (a == [] && b == []) || (a != [] && b != [] && MS.SameTree(a, b))
  }

  /** Two states have one v5 root if, and without a collision only if, both are empty or their leaves give one padded tree. */
  lemma RootV5EqualIff(
    c: Codec, h: Sha3, accounts: Accounts, contracts: Contracts, accounts': Accounts, contracts': Contracts)
    requires Digest32(h)
    ensures SameCommitment(c, h, accounts, contracts, accounts', contracts') ==>
              RootV5(c, h, accounts, contracts) == RootV5(c, h, accounts', contracts')
    ensures var all := SP.StateInputs(c, h, accounts, contracts) + SP.StateInputs(c, h, accounts', contracts');
            RootV5(c, h, accounts, contracts) == RootV5(c, h, accounts', contracts') ==>
              SameCommitment(c, h, accounts, contracts, accounts', contracts') || Collision(h, all, all)
  {
    var a, b := StateLeaves(c, h, accounts, contracts), StateLeaves(c, h, accounts', contracts');
    var all := SP.StateInputs(c, h, accounts, contracts) + SP.StateInputs(c, h, accounts', contracts');
    LeavesOfState(c, h, accounts, contracts);
    LeavesOfState(c, h, accounts', contracts');
    if a != [] && b != [] {
      MS.RootsDecideTree(h, a, b);
      if Collision(h, M.RootInputs(h, b), M.RootInputs(h, a)) {
        CollisionGrows(h, M.RootInputs(h, b), M.RootInputs(h, a), all, all);
      }
    } else if a != [] || b != [] {
      EmptyRootAlone(c, h, accounts, contracts, accounts', contracts', all);
      EmptyRootAlone(c, h, accounts', contracts', accounts, contracts, all);
    }
  }

  /** Without a collision no other state has the root of the empty one. */
  lemma EmptyRootAlone(
    c: Codec, h: Sha3, accounts: Accounts, contracts: Contracts, accounts': Accounts, contracts': Contracts, all: set<Bytes>)
    requires Digest32(h)
    requires SP.StateInputs(c, h, accounts, contracts) <= all && SP.StateInputs(c, h, accounts', contracts') <= all
    ensures (Empty(accounts, contracts) && !Empty(accounts', contracts')
             && RootV5(c, h, accounts, contracts) == RootV5(c, h, accounts', contracts')) ==> Collision(h, all, all)
  {
    if Empty(accounts, contracts) && !Empty(accounts', contracts')
       && RootV5(c, h, accounts, contracts) == RootV5(c, h, accounts', contracts') {
      var leaves := StateLeaves(c, h, accounts', contracts');
      LeavesOfState(c, h, accounts', contracts');
      var proof := LeafProof(h, leaves, 0);
      MS.SeedRootAcceptsNothing(h, EMPTY_STATE_SEED, leaves[0], proof, 0);
      CollisionGrows(h, {EMPTY_STATE_SEED}, M.VerifyInputs(h, leaves[0], proof, 0), all, all);
    }
  }

  lemma AccountFromEncodings(
    c: Codec, accounts: Accounts, accounts': Accounts, contracts': Contracts, a: Bytes)
    requires Injective(c) && a in accounts && FitsAccount(a, accounts[a]) && Fits(accounts', contracts')
    requires c.account(a, accounts[a]) in SP.AccountInputs(c, accounts')
    ensures a in accounts' && accounts'[a] == accounts[a]
  {
    var b :| b in accounts' && c.account(a, accounts[a]) == c.account(b, accounts'[b]);
  }

  lemma ContractFromEncodings(
    c: Codec, h: Sha3, contracts: Contracts, accounts': Accounts, contracts': Contracts, all: set<Bytes>, a: Bytes)
    requires Digest32(h) && Injective(c) && V6.CollisionFree(h, all)
    requires a in contracts && FitsContract(a, contracts[a]) && Fits(accounts', contracts')
    requires V6.AllStorageInputs(c, h, contracts) <= all && V6.AllStorageInputs(c, h, contracts') <= all
    requires ContractInput(c, h, a, contracts[a]) in SP.ContractInputs(c, h, contracts')
    ensures a in contracts' && V6.SameContract(h, contracts[a], contracts'[a])
  {
    var b :| b in contracts' && ContractInput(c, h, a, contracts[a]) == ContractInput(c, h, b, contracts'[b]);
    ContractPartsFit(c, h, a, contracts[a]);
    ContractPartsFit(c, h, b, contracts'[b]);
    var x, y := contracts[a], contracts'[a];
    assert SP.StorageInputs(c, h, x.storage) <= V6.AllStorageInputs(c, h, contracts);
    assert SP.StorageInputs(c, h, y.storage) <= V6.AllStorageInputs(c, h, contracts');
    V6.StorageRootBinds(c, h, x.storage, y.storage, all);
  }

  /** Everything of the first state is in the second. */
  ghost predicate Within(h: Sha3, accounts: Accounts, contracts: Contracts, accounts': Accounts, contracts': Contracts)
  {
    && (forall a :: a in accounts ==> a in accounts' && accounts'[a] == accounts[a])
    && (forall a :: a in contracts ==> a in contracts' && V6.SameContract(h, contracts[a], contracts'[a]))
  }

  lemma WithinBothWays(h: Sha3, accounts: Accounts, contracts: Contracts, accounts': Accounts, contracts': Contracts)
    requires Within(h, accounts, contracts, accounts', contracts')
    requires Within(h, accounts', contracts', accounts, contracts)
    ensures V6.SameState(h, accounts, contracts, accounts', contracts')
  {
    assert accounts.Keys == accounts'.Keys;
  }

  /** No account of one state reads as a contract of the other. */
  ghost predicate Apart(c: Codec, h: Sha3, accounts: Accounts, contracts: Contracts)
  {
    SP.AccountInputs(c, accounts) !! SP.ContractInputs(c, h, contracts)
  }

  /**
  Two states with one v5 root, of which neither has an account that reads as a contract of the
  other, are the same state: the same accounts, and the same contracts with the same owner, code
  hash and storage; or, among the strings hashed for either, two collide.
  */
  lemma RootV5Binds(c: Codec, h: Sha3, accounts: Accounts, contracts: Contracts, accounts': Accounts, contracts': Contracts)
    requires Digest32(h) && Injective(c) && Fits(accounts, contracts) && Fits(accounts', contracts')
    requires Apart(c, h, accounts, contracts') && Apart(c, h, accounts', contracts)
    requires RootV5(c, h, accounts, contracts) == RootV5(c, h, accounts', contracts')
    ensures var all := V5Inputs(c, h, accounts, contracts) + V5Inputs(c, h, accounts', contracts');
            V6.SameState(h, accounts, contracts, accounts', contracts') || Collision(h, all, all)
  {
    var all := V5Inputs(c, h, accounts, contracts) + V5Inputs(c, h, accounts', contracts');
    if V6.CollisionFree(h, all) {
      HalfState(c, h, accounts, contracts, accounts', contracts', all);
      HalfState(c, h, accounts', contracts', accounts, contracts, all);
      WithinBothWays(h, accounts, contracts, accounts', contracts');
    }
  }

  lemma HalfState(
    c: Codec, h: Sha3, accounts: Accounts, contracts: Contracts, accounts': Accounts, contracts': Contracts,
    all: set<Bytes>)
    requires Digest32(h) && Injective(c) && V6.CollisionFree(h, all)
    requires Fits(accounts, contracts) && Fits(accounts', contracts')
    requires Apart(c, h, accounts, contracts') && Apart(c, h, accounts', contracts)
    requires V5Inputs(c, h, accounts, contracts) <= all && V5Inputs(c, h, accounts', contracts') <= all
    requires RootV5(c, h, accounts, contracts) == RootV5(c, h, accounts', contracts')
    ensures Within(h, accounts, contracts, accounts', contracts')
  {
    forall a | a in accounts
      ensures a in accounts' && accounts'[a] == accounts[a]
    {
      assert c.account(a, accounts[a]) in SP.AccountInputs(c, accounts);
      EncodingCarriesOver(c, h, accounts, contracts, accounts', contracts', all, c.account(a, accounts[a]));
      AccountFromEncodings(c, accounts, accounts', contracts', a);
    }
    forall a | a in contracts
      ensures a in contracts' && V6.SameContract(h, contracts[a], contracts'[a])
    {
      assert ContractInput(c, h, a, contracts[a]) in SP.ContractInputs(c, h, contracts);
      EncodingCarriesOver(c, h, accounts, contracts, accounts', contracts', all, ContractInput(c, h, a, contracts[a]));
      ContractFromEncodings(c, h, contracts, accounts', contracts', all, a);
    }
  }
}
