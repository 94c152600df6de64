/**
Inclusion proofs for accounts and storage slots against the v5 state root
(`src/core/state_proof.rs`) and the light client's verifiers (`src/light/mod.rs`).
*/
module StateProof {
  import opened Common
  import opened Hashing
  import opened Merkle
  import opened MerkleSoundness
  import opened Sorting
  import opened StateRoot

  datatype AccountProof = AccountProof(
    address: Bytes, state: AccountState, leafIndex: nat, leafHash: Bytes, proof: seq<Bytes>, stateRoot: Bytes)

  datatype StorageProof = StorageProof(
    contractAddress: Bytes, codeHash: Bytes, owner: Bytes, key: Bytes, value: Bytes,
    slotIndex: nat, slotHash: Bytes, slotProof: seq<Bytes>, storageRoot: Bytes,
    contractIndex: nat, contractHash: Bytes, contractProof: seq<Bytes>, stateRoot: Bytes)

  /** `verify_account_proof`. */
  predicate AccountProofValid(c: Codec, h: Sha3, p: AccountProof)
  {
    h(c.account(p.address, p.state)) == p.leafHash && Verify(h, p.leafHash, p.proof, p.leafIndex, p.stateRoot)
  }

  /** `verify_storage_proof`: the slot against the storage root, and the contract holding that root against the state root. */
  predicate StorageProofValid(c: Codec, h: Sha3, p: StorageProof)
  {
    if h(c.slot(p.key, p.value)) != p.slotHash then false
    else if !Verify(h, p.slotHash, p.slotProof, p.slotIndex, p.storageRoot) then false
    else
      && h(c.contract(p.contractAddress, p.codeHash, p.owner, p.storageRoot)) == p.contractHash
      && Verify(h, p.contractHash, p.contractProof, p.contractIndex, p.stateRoot)
  }

  /** The light client's account check. */
  predicate LightAccountProofValid(c: Codec, h: Sha3, p: AccountProof)
  {
    var expectedLeaf := h(c.account(p.address, p.state));
    expectedLeaf == p.leafHash && Verify(h, p.leafHash, p.proof, p.leafIndex, p.stateRoot)
  }

  /** The light client's storage check, which evaluates everything before deciding. */
  predicate LightStorageProofValid(c: Codec, h: Sha3, p: StorageProof)
  {
    var slotLeaf := h(c.slot(p.key, p.value));
    if slotLeaf != p.slotHash then false
    else
      var storageValid := Verify(h, p.slotHash, p.slotProof, p.slotIndex, p.storageRoot);
      var contractValid := Verify(h, p.contractHash, p.contractProof, p.contractIndex, p.stateRoot);
      var contractLeaf := h(c.contract(p.contractAddress, p.codeHash, p.owner, p.storageRoot));
      storageValid && contractLeaf == p.contractHash && contractValid
  }

  // ---------------------------------------------------------------------------
  // Generation

  /** `generate_account_proof`: present for exactly the stored accounts, and then it verifies against the state root. */
  method GenerateAccountProof(c: Codec, h: Sha3, address: Bytes, accounts: Accounts, contracts: Contracts)
    returns (r: Option<AccountProof>)
    requires Digest32(h)
    ensures r.Some? <==> address in accounts
    ensures r.Some? ==>
              && r.value.address == address && r.value.state == accounts[address]
              && r.value.stateRoot == RootV5(c, h, accounts, contracts)
              && AccountProofValid(c, h, r.value)
  {
    if address !in accounts {
      return None;
    }
    var ks := SortKeys(accounts.Keys);
    var index := Position(ks, address);
    var leaves := HashState(c, h, accounts, contracts);
    AccountLeafAt(c, h, accounts, contracts, index.value);
    GeneratedProofVerifies(h, leaves, index.value);
    var proof := GenerateProof(h, leaves, index.value);
    var root := ComputeV5(c, h, accounts, contracts);
    r := Some(AccountProof(address, accounts[address], index.value, AccountLeaf(c, h, address, accounts[address]),
                           proof, root));
  }

  /** `generate_storage_proof`: present for exactly the stored slots of stored contracts, and then both levels verify. */
  method GenerateStorageProof(
    c: Codec, h: Sha3, address: Bytes, key: Bytes, accounts: Accounts, contracts: Contracts)
    returns (r: Option<StorageProof>)
    requires Digest32(h)
    ensures r.Some? <==> address in contracts && key in contracts[address].storage
    ensures r.Some? ==>
              && r.value.contractAddress == address && r.value.key == key
              && r.value.value == contracts[address].storage[key]
              && r.value.stateRoot == RootV5(c, h, accounts, contracts)
              && StorageProofValid(c, h, r.value)
  {
    if address !in contracts {
      return None;
    }
    var contract := contracts[address];
    if key !in contract.storage {
      return None;
    }
    var accountKeys := SortKeys(accounts.Keys);
    var contractKeys := SortKeys(contracts.Keys);
    var position := Position(contractKeys, address);
    var slotKeys, slotLeaves := HashStorage(c, h, contract.storage);
    var slot := Position(slotKeys, key);
    StorageLeafAt(c, h, contract.storage, slot.value);
    GeneratedProofVerifies(h, slotLeaves, slot.value);
    var slotProof := GenerateProof(h, slotLeaves, slot.value);
    var storageRoot := ComputeRoot(h, slotLeaves);

    var contractLeaf := HashContract(c, h, address, contract);
    var leaves := HashState(c, h, accounts, contracts);
    var index := |accountKeys| + position.value;
    ContractLeafAt(c, h, accounts, contracts, position.value);
    GeneratedProofVerifies(h, leaves, index);
    var contractProof := GenerateProof(h, leaves, index);
    var codeHash := if contract.codeHash == [] then h(contract.code) else contract.codeHash;
    var root := ComputeV5(c, h, accounts, contracts);
    r := Some(StorageProof(address, codeHash, contract.owner, key, contract.storage[key],
                           slot.value, slotLeaves[slot.value], slotProof, storageRoot,
                           index, contractLeaf, contractProof, root));
  }

  lemma AccountLeafAt(c: Codec, h: Sha3, accounts: Accounts, contracts: Contracts, i: nat)
    requires i < |SortedKeys(accounts.Keys)|
    ensures var ks, leaves := SortedKeys(accounts.Keys), StateLeaves(c, h, accounts, contracts);
            && ks[i] in accounts && i < |leaves| && leaves[i] == h(c.account(ks[i], accounts[ks[i]]))
            && RootV5(c, h, accounts, contracts) == MerkleRoot(h, leaves)
  {
    var ks := SortedKeys(accounts.Keys);
    assert ks[i] in ks && ks[i] in accounts.Keys;
    assert AccountLeaves(c, h, accounts)[i] == AccountLeaf(c, h, ks[i], accounts[ks[i]]);
  }

  lemma ContractLeafAt(c: Codec, h: Sha3, accounts: Accounts, contracts: Contracts, j: nat)
    requires j < |SortedKeys(contracts.Keys)|
    ensures var ks, leaves := SortedKeys(contracts.Keys), StateLeaves(c, h, accounts, contracts);
            var i := |SortedKeys(accounts.Keys)| + j;
            && ks[j] in contracts && i < |leaves| && leaves[i] == h(ContractInput(c, h, ks[j], contracts[ks[j]]))
            && RootV5(c, h, accounts, contracts) == MerkleRoot(h, leaves)
  {
    ContractLeafValue(c, h, contracts, j);
    var accountLeaves := AccountLeaves(c, h, accounts);
    assert StateLeaves(c, h, accounts, contracts)[|accountLeaves| + j] == ContractLeaves(c, h, contracts)[j];
  }

  lemma ContractLeafValue(c: Codec, h: Sha3, contracts: Contracts, j: nat)
    requires j < |SortedKeys(contracts.Keys)|
    ensures var ks := SortedKeys(contracts.Keys);
            ks[j] in contracts && ContractLeaves(c, h, contracts)[j] == h(ContractInput(c, h, ks[j], contracts[ks[j]]))
  {
    var ks := SortedKeys(contracts.Keys);
    assert ks[j] in ks && ks[j] in contracts.Keys;
  }

  lemma StorageLeafAt(c: Codec, h: Sha3, storage: map<Bytes, Bytes>, i: nat)
    requires i < |SortedKeys(storage.Keys)|
    ensures var ks := SortedKeys(storage.Keys);
            ks[i] in storage && StorageLeaves(c, h, storage)[i] == h(c.slot(ks[i], storage[ks[i]]))
  {
    var ks := SortedKeys(storage.Keys);
    assert ks[i] in ks && ks[i] in storage.Keys;
    assert StorageLeaves(c, h, storage)[i] == h(SlotInput(c, storage, ks[i]));
  }

  /** The light client accepts exactly the proofs the full verifiers accept. */
  lemma LightClientAgrees(c: Codec, h: Sha3, p: AccountProof, q: StorageProof)
    ensures LightAccountProofValid(c, h, p) <==> AccountProofValid(c, h, p)
    ensures LightStorageProofValid(c, h, q) <==> StorageProofValid(c, h, q)
  {
  }

  // ---------------------------------------------------------------------------
  // Soundness

  ghost function AccountInputs(c: Codec, accounts: Accounts): set<Bytes>
  {
    set a | a in accounts :: c.account(a, accounts[a])
  }

  ghost function ContractInputs(c: Codec, h: Sha3, contracts: Contracts): set<Bytes>
  {
    set a | a in contracts :: ContractInput(c, h, a, contracts[a])
  }

  ghost function SlotInputs(c: Codec, storage: map<Bytes, Bytes>): set<Bytes>
  {
    set k | k in storage :: c.slot(k, storage[k])
  }

  /** What hashing one contract's storage hashes. */
  ghost function StorageInputs(c: Codec, h: Sha3, storage: map<Bytes, Bytes>): set<Bytes>
  {
    SlotInputs(c, storage) + RootInputs(h, StorageLeaves(c, h, storage))
  }

  /** What the v5 root hashes above the storage tries; the empty state hashes its own seed. */
  ghost function StateInputs(c: Codec, h: Sha3, accounts: Accounts, contracts: Contracts): set<Bytes>
  {
    if accounts == map[] && contracts == map[] then {EMPTY_STATE_SEED}
    else AccountInputs(c, accounts) + ContractInputs(c, h, contracts) + RootInputs(h, StateLeaves(c, h, accounts, contracts))
  }

  /** What a proof against the v5 root can be about: the string is one that the state hashed into a leaf, or a collision shows. */
  lemma AcceptedEncodingIsStored(
    c: Codec, h: Sha3, x: Bytes, proof: seq<Bytes>, index: nat, accounts: Accounts, contracts: Contracts)
    requires Digest32(h) && Verify(h, h(x), proof, index, RootV5(c, h, accounts, contracts))
    ensures x in AccountInputs(c, accounts) || x in ContractInputs(c, h, contracts)
            || Collision(h, StateInputs(c, h, accounts, contracts), {x} + VerifyInputs(h, h(x), proof, index))
  {
    var mine, path := StateInputs(c, h, accounts, contracts), VerifyInputs(h, h(x), proof, index);
    if accounts == map[] && contracts == map[] {
      SeedRootAcceptsNothing(h, EMPTY_STATE_SEED, h(x), proof, index);
      CollisionGrows(h, {EMPTY_STATE_SEED}, path, mine, {x} + path);
    } else {
      var leaves := StateLeaves(c, h, accounts, contracts);
      AcceptedLeafIsInTree(h, leaves, h(x), proof, index);
      if leaves != [] && h(x) == leaves[Slot(|leaves|, index)] {
        var y := LeafEncoding(c, h, accounts, contracts, Slot(|leaves|, index));
        SameDigest(h, y, x, mine, {x} + path);
      } else {
        CollisionGrows(h, RootInputs(h, leaves), path, mine, {x} + path);
      }
    }
  }

  /** Every leaf is the digest of a stored account's or a stored contract's encoding. */
  lemma LeafEncoding(c: Codec, h: Sha3, accounts: Accounts, contracts: Contracts, i: nat) returns (y: Bytes)
    requires i < |StateLeaves(c, h, accounts, contracts)|
    ensures StateLeaves(c, h, accounts, contracts)[i] == h(y)
    ensures y in AccountInputs(c, accounts) || y in ContractInputs(c, h, contracts)
  {
    var as_, cs := SortedKeys(accounts.Keys), SortedKeys(contracts.Keys);
    if i < |as_| {
      AccountLeafAt(c, h, accounts, contracts, i);
      y := c.account(as_[i], accounts[as_[i]]);
    } else {
      var j := i - |as_|;
      ContractLeafAt(c, h, accounts, contracts, j);
      y := ContractInput(c, h, cs[j], contracts[cs[j]]);
    }
  }

  /** What an account proof's verifier hashes. */
  ghost function AccountProofInputs(c: Codec, h: Sha3, p: AccountProof): set<Bytes>
  {
    {c.account(p.address, p.state)} + VerifyInputs(h, p.leafHash, p.proof, p.leafIndex)
  }

  /**
  An account proof accepted against the root of a state, whatever its index, shows that account's
  real state; or its encoding is also that of a stored contract; or the prover and the builder of
  the root collided.
  */
  lemma AccountProofSound(c: Codec, h: Sha3, p: AccountProof, accounts: Accounts, contracts: Contracts)
    requires Digest32(h) && Injective(c) && Fits(accounts, contracts) && FitsAccount(p.address, p.state)
    requires AccountProofValid(c, h, p) && p.stateRoot == RootV5(c, h, accounts, contracts)
    ensures (p.address in accounts && accounts[p.address] == p.state)
            || c.account(p.address, p.state) in ContractInputs(c, h, contracts)
            || Collision(h, StateInputs(c, h, accounts, contracts), AccountProofInputs(c, h, p))
  {
    AcceptedEncodingIsStored(c, h, c.account(p.address, p.state), p.proof, p.leafIndex, accounts, contracts);
  }

  /** The second case is real: a stored contract whose encoding reads as an account proves that account. */
  lemma ContractProvesAccount(
    c: Codec, h: Sha3, address: Bytes, state: AccountState, accounts: Accounts, contracts: Contracts)
    returns (p: AccountProof)
    requires Digest32(h) && c.account(address, state) in ContractInputs(c, h, contracts)
    ensures p.address == address && p.state == state && p.stateRoot == RootV5(c, h, accounts, contracts)
    ensures AccountProofValid(c, h, p)
  {
    var k :| k in contracts && c.account(address, state) == ContractInput(c, h, k, contracts[k]);
    var ks, leaves := SortedKeys(contracts.Keys), StateLeaves(c, h, accounts, contracts);
    assert k in ks;
    var j :| 0 <= j < |ks| && ks[j] == k;
    var i := |SortedKeys(accounts.Keys)| + j;
    ContractLeafAt(c, h, accounts, contracts, j);
    GeneratedProofVerifies(h, leaves, i);
    p := AccountProof(address, state, i, leaves[i], MerkleProof(h, leaves, i), MerkleRoot(h, leaves));
  }

  /** What a storage proof's verifier hashes. */
  ghost function StorageProofInputs(c: Codec, h: Sha3, p: StorageProof): set<Bytes>
  {
    {c.slot(p.key, p.value), ProofContract(c, p)}
    + VerifyInputs(h, p.slotHash, p.slotProof, p.slotIndex)
    + VerifyInputs(h, p.contractHash, p.contractProof, p.contractIndex)
  }

  ghost predicate FitsProof(p: StorageProof)
  {
    FitsParts(p.contractAddress, p.codeHash, p.owner, p.storageRoot) && FitsSlot(p.key, p.value)
  }

  /** The contract encoding a storage proof is about. */
  function ProofContract(c: Codec, p: StorageProof): Bytes
  {
    c.contract(p.contractAddress, p.codeHash, p.owner, p.storageRoot)
  }

  /** The outer half: the proof names a real contract and its real storage root, or its encoding is also that of a stored account. */
  lemma ContractHalfSound(c: Codec, h: Sha3, p: StorageProof, accounts: Accounts, contracts: Contracts)
    requires Digest32(h) && Injective(c) && Fits(accounts, contracts) && FitsProof(p)
    requires StorageProofValid(c, h, p) && p.stateRoot == RootV5(c, h, accounts, contracts)
    ensures (p.contractAddress in contracts
             && p.storageRoot == StorageRoot(c, h, contracts[p.contractAddress].storage)
             && p.owner == contracts[p.contractAddress].owner && p.codeHash == CodeHash(h, contracts[p.contractAddress]))
            || ProofContract(c, p) in AccountInputs(c, accounts)
            || Collision(h, StateInputs(c, h, accounts, contracts), StorageProofInputs(c, h, p))
  {
    var mine, x := StateInputs(c, h, accounts, contracts), ProofContract(c, p);
    var theirs := {x} + VerifyInputs(h, p.contractHash, p.contractProof, p.contractIndex);
    AcceptedEncodingIsStored(c, h, x, p.contractProof, p.contractIndex, accounts, contracts);
    if Collision(h, mine, theirs) {
      CollisionGrows(h, mine, theirs, mine, StorageProofInputs(c, h, p));
    } else if x in ContractInputs(c, h, contracts) {
      var a :| a in contracts && x == ContractInput(c, h, a, contracts[a]);
      ContractPartsFit(c, h, a, contracts[a]);
    }
  }

  /** The inner half: against a real storage root, whatever the index, the slot holds the claimed value. */
  lemma SlotHalfSound(c: Codec, h: Sha3, p: StorageProof, storage: map<Bytes, Bytes>)
    requires Digest32(h) && Injective(c) && FitsStorage(storage) && FitsProof(p)
    requires StorageProofValid(c, h, p) && p.storageRoot == StorageRoot(c, h, storage)
    ensures (p.key in storage && storage[p.key] == p.value)
            || Collision(h, StorageInputs(c, h, storage), StorageProofInputs(c, h, p))
  {
    var leaves, ks := StorageLeaves(c, h, storage), SortedKeys(storage.Keys);
    var mine, theirs := StorageInputs(c, h, storage), StorageProofInputs(c, h, p);
    var path := VerifyInputs(h, p.slotHash, p.slotProof, p.slotIndex);
    AcceptedLeafIsInTree(h, leaves, p.slotHash, p.slotProof, p.slotIndex);
    if leaves != [] && p.slotHash == leaves[Slot(|leaves|, p.slotIndex)] {
      var i := Slot(|leaves|, p.slotIndex);
      StorageLeafAt(c, h, storage, i);
      SameDigest(h, c.slot(ks[i], storage[ks[i]]), c.slot(p.key, p.value), mine, theirs);
    } else {
      CollisionGrows(h, RootInputs(h, leaves), path, mine, theirs);
    }
  }

  /**
  A storage proof accepted against the root of a state, whatever its two indices, shows the real
  value of that slot of that contract; or its contract encoding is also that of a stored account;
  or there is a collision at one of the two levels.
  */
  lemma StorageProofSound(c: Codec, h: Sha3, p: StorageProof, accounts: Accounts, contracts: Contracts)
    requires Digest32(h) && Injective(c) && Fits(accounts, contracts) && FitsProof(p)
    requires StorageProofValid(c, h, p) && p.stateRoot == RootV5(c, h, accounts, contracts)
    ensures (p.contractAddress in contracts && p.key in contracts[p.contractAddress].storage
             && contracts[p.contractAddress].storage[p.key] == p.value)
            || ProofContract(c, p) in AccountInputs(c, accounts)
            || Collision(h, StateInputs(c, h, accounts, contracts), StorageProofInputs(c, h, p))
            || (p.contractAddress in contracts
                && Collision(h, StorageInputs(c, h, contracts[p.contractAddress].storage), StorageProofInputs(c, h, p)))
  {
    ContractHalfSound(c, h, p, accounts, contracts);
    if p.contractAddress in contracts && p.storageRoot == StorageRoot(c, h, contracts[p.contractAddress].storage) {
      assert FitsContract(p.contractAddress, contracts[p.contractAddress]);
      SlotHalfSound(c, h, p, contracts[p.contractAddress].storage);
    }
  }

  /** The second case is real: a stored account whose encoding reads as a contract proves every slot of that contract. */
  lemma AccountProvesSlot(
    c: Codec, h: Sha3, address: Bytes, codeHash: Bytes, owner: Bytes, storage: map<Bytes, Bytes>, key: Bytes,
    accounts: Accounts, contracts: Contracts)
    returns (p: StorageProof)
    requires Digest32(h) && key in storage
    requires c.contract(address, codeHash, owner, StorageRoot(c, h, storage)) in AccountInputs(c, accounts)
    ensures p.contractAddress == address && p.key == key && p.value == storage[key]
    ensures p.stateRoot == RootV5(c, h, accounts, contracts) && StorageProofValid(c, h, p)
  {
    var root := StorageRoot(c, h, storage);
    var a :| a in accounts && c.account(a, accounts[a]) == c.contract(address, codeHash, owner, root);
    var as_, leaves := SortedKeys(accounts.Keys), StateLeaves(c, h, accounts, contracts);
    var ks, slots := SortedKeys(storage.Keys), StorageLeaves(c, h, storage);
    assert a in as_ && key in ks;
    var i :| 0 <= i < |as_| && as_[i] == a;
    var j :| 0 <= j < |ks| && ks[j] == key;
    AccountLeafAt(c, h, accounts, contracts, i);
    StorageLeafAt(c, h, storage, j);
    GeneratedProofVerifies(h, leaves, i);
    GeneratedProofVerifies(h, slots, j);
    p := StorageProof(address, codeHash, owner, key, storage[key], j, slots[j], MerkleProof(h, slots, j), root,
                      i, leaves[i], MerkleProof(h, leaves, i), MerkleRoot(h, leaves));
  }
}
