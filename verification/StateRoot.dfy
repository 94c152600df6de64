/**
State roots (`src/core/state_root.rs`): the v5 Merkle root over sorted account and contract leaves,
with each contract's storage committed by a nested root, and the v6 trie root. The serialisation
of leaves is the parameter `Codec`.
*/
module StateRoot {
  import opened Common
  import opened Hashing
  import opened Merkle
  import opened Sorting

  /** The bytes of "curs3d-empty-state". */
  const EMPTY_STATE_SEED: Bytes :=
    [0x63, 0x75, 0x72, 0x73, 0x33, 0x64, 0x2d, 0x65, 0x6d, 0x70, 0x74, 0x79, 0x2d, 0x73, 0x74, 0x61, 0x74, 0x65]

  datatype PendingUnstake = PendingUnstake(amount: nat, unlockHeight: nat)

  datatype AccountState = AccountState(
    balance: nat, nonce: nat, stakedBalance: nat, pendingUnstakes: seq<PendingUnstake>,
    validatorActiveFromHeight: nat, jailedUntilHeight: nat, publicKey: Option<Bytes>)

  datatype ContractState = ContractState(codeHash: Bytes, code: Bytes, storage: map<Bytes, Bytes>, owner: Bytes)

  type Accounts = map<Bytes, AccountState>
  type Contracts = map<Bytes, ContractState>

  /** The encodings of the three kinds of leaf. */
  datatype Codec = Codec(
    account: (Bytes, AccountState) -> Bytes,
    slot: (Bytes, Bytes) -> Bytes,
    contract: (Bytes, Bytes, Bytes, Bytes) -> Bytes)

  // The values the source's types can hold: integers of 64 bits and lengths counted by them.

  predicate FitsState(s: AccountState)
  {
    && s.balance <= U64_MAX && s.nonce <= U64_MAX && s.stakedBalance <= U64_MAX
    && s.validatorActiveFromHeight <= U64_MAX && s.jailedUntilHeight <= U64_MAX
    && |s.pendingUnstakes| <= U64_MAX
    && (forall u :: u in s.pendingUnstakes ==> u.amount <= U64_MAX && u.unlockHeight <= U64_MAX)
    && (s.publicKey.Some? ==> |s.publicKey.value| <= U64_MAX)
  }

  predicate FitsAccount(address: Bytes, s: AccountState) { |address| <= U64_MAX && FitsState(s) }

  predicate FitsSlot(k: Bytes, v: Bytes) { |k| <= U64_MAX && |v| <= U64_MAX }

  predicate FitsParts(address: Bytes, codeHash: Bytes, owner: Bytes, root: Bytes)
  {
    |address| <= U64_MAX && |codeHash| <= U64_MAX && |owner| <= U64_MAX && |root| <= U64_MAX
  }

  ghost predicate FitsStorage(storage: map<Bytes, Bytes>)
  {
    forall k :: k in storage ==> FitsSlot(k, storage[k])
  }

  ghost predicate FitsContract(address: Bytes, x: ContractState)
  {
    FitsParts(address, x.codeHash, x.owner, []) && FitsStorage(x.storage)
  }

  ghost predicate Fits(accounts: Accounts, contracts: Contracts)
  {
    && (forall a :: a in accounts ==> FitsAccount(a, accounts[a]))
    && (forall a :: a in contracts ==> FitsContract(a, contracts[a]))
  }

  /** Encodings determine what they encode, as far as it fits the source's types. */
  ghost predicate Injective(c: Codec)
  {
    && (forall a, s, a', s' :: FitsAccount(a, s) && FitsAccount(a', s') && c.account(a, s) == c.account(a', s') ==>
          a == a' && s == s')
    && (forall k, v, k', v' :: FitsSlot(k, v) && FitsSlot(k', v') && c.slot(k, v) == c.slot(k', v') ==> k == k' && v == v')
    && (forall a, ch, o, r, a', ch', o', r' ::
          FitsParts(a, ch, o, r) && FitsParts(a', ch', o', r') && c.contract(a, ch, o, r) == c.contract(a', ch', o', r') ==>
          a == a' && ch == ch' && o == o' && r == r')
  }

  function AccountLeaf(c: Codec, h: Sha3, address: Bytes, state: AccountState): Bytes
  {
    h(c.account(address, state))
  }

  /** The leaves of the storage trie, in key order. */
  ghost function StorageLeaves(c: Codec, h: Sha3, storage: map<Bytes, Bytes>): (leaves: seq<Bytes>)
    ensures |leaves| == |SortedKeys(storage.Keys)|
  {
    var ks := SortedKeys(storage.Keys);
    seq(|ks|, i requires 0 <= i < |ks| => h(SlotInput(c, storage, ks[i])))
  }

  function SlotInput(c: Codec, storage: map<Bytes, Bytes>, k: Bytes): Bytes
  {
    if k in storage then c.slot(k, storage[k]) else []
  }

  ghost function StorageRoot(c: Codec, h: Sha3, storage: map<Bytes, Bytes>): Bytes
  {
    MerkleRoot(h, StorageLeaves(c, h, storage))
  }

  function CodeHash(h: Sha3, contract: ContractState): Bytes
  {
    if contract.codeHash == [] then h(contract.code) else contract.codeHash
  }

  /** Storage roots and code hashes are digests, or fit as stored. */
  lemma ContractPartsFit(c: Codec, h: Sha3, address: Bytes, x: ContractState)
    requires Digest32(h) && FitsContract(address, x)
    ensures FitsParts(address, CodeHash(h, x), x.owner, StorageRoot(c, h, x.storage))
  {
    var leaves := StorageLeaves(c, h, x.storage);
    if leaves != [] {
      LeafLevelDigests(h, leaves);
      RootIsDigest(h, LeafLevel(h, leaves));
    }
  }

  ghost function ContractInput(c: Codec, h: Sha3, address: Bytes, contract: ContractState): Bytes
  {
    c.contract(address, CodeHash(h, contract), contract.owner, StorageRoot(c, h, contract.storage))
  }

  ghost function AccountLeaves(c: Codec, h: Sha3, accounts: Accounts): (leaves: seq<Bytes>)
    ensures |leaves| == |SortedKeys(accounts.Keys)|
  {
    var ks := SortedKeys(accounts.Keys);
    seq(|ks|, i requires 0 <= i < |ks| => if ks[i] in accounts then AccountLeaf(c, h, ks[i], accounts[ks[i]]) else [])
  }

  ghost function ContractLeaves(c: Codec, h: Sha3, contracts: Contracts): (leaves: seq<Bytes>)
    ensures |leaves| == |SortedKeys(contracts.Keys)|
  {
    var ks := SortedKeys(contracts.Keys);
    seq(|ks|, i requires 0 <= i < |ks| =>
      if ks[i] in contracts then h(ContractInput(c, h, ks[i], contracts[ks[i]])) else [])
  }

  /** `state_leaf_hashes`: accounts first, then contracts, each by address. */
  ghost function StateLeaves(c: Codec, h: Sha3, accounts: Accounts, contracts: Contracts): seq<Bytes>
  {
    AccountLeaves(c, h, accounts) + ContractLeaves(c, h, contracts)
  }

  /** `compute_v5_merkle`. */
  ghost function RootV5(c: Codec, h: Sha3, accounts: Accounts, contracts: Contracts): Bytes
  {
    if accounts == map[] && contracts == map[] then h(EMPTY_STATE_SEED)
    else MerkleRoot(h, StateLeaves(c, h, accounts, contracts))
  }

  // ---------------------------------------------------------------------------
  // The computations of the source

  method HashStorage(c: Codec, h: Sha3, storage: map<Bytes, Bytes>) returns (ks: seq<Bytes>, leaves: seq<Bytes>)
    ensures ks == SortedKeys(storage.Keys) && leaves == StorageLeaves(c, h, storage)
  {
    ks := SortKeys(storage.Keys);
    leaves := [];
    for i := 0 to |ks|
      invariant |leaves| == i && leaves == StorageLeaves(c, h, storage)[..i]
    {
      assert ks[i] in storage.Keys;
      assert StorageLeaves(c, h, storage)[i] == h(SlotInput(c, storage, ks[i]));
      leaves := leaves + [h(c.slot(ks[i], storage[ks[i]]))];
    }
  }

  /** `contract_leaf_hash`, with `contract_storage_root`. */
  method HashContract(c: Codec, h: Sha3, address: Bytes, contract: ContractState) returns (leaf: Bytes)
    ensures leaf == h(ContractInput(c, h, address, contract))
  {
    var _, leaves := HashStorage(c, h, contract.storage);
    var root := ComputeRoot(h, leaves);
    var codeHash := if contract.codeHash == [] then h(contract.code) else contract.codeHash;
    leaf := h(c.contract(address, codeHash, contract.owner, root));
  }

  method HashAccounts(c: Codec, h: Sha3, accounts: Accounts) returns (leaves: seq<Bytes>)
    ensures leaves == AccountLeaves(c, h, accounts)
  {
    leaves := [];
    var ks := SortKeys(accounts.Keys);
    for i := 0 to |ks|
      invariant |leaves| == i && leaves == AccountLeaves(c, h, accounts)[..i]
    {
      assert ks[i] in accounts.Keys;
      leaves := leaves + [AccountLeaf(c, h, ks[i], accounts[ks[i]])];
    }
  }

  /** `state_leaf_hashes`: the accounts' leaves, then the contracts', each in key order. */
  method HashState(c: Codec, h: Sha3, accounts: Accounts, contracts: Contracts) returns (leaves: seq<Bytes>)
    ensures leaves == StateLeaves(c, h, accounts, contracts)
  {
    leaves := HashAccounts(c, h, accounts);
    var ks := SortKeys(contracts.Keys);
    ghost var all := ContractLeaves(c, h, contracts);
    for i := 0 to |ks|
      invariant leaves == AccountLeaves(c, h, accounts) + all[..i]
    {
      assert ks[i] in contracts.Keys;
      var leaf := HashContract(c, h, ks[i], contracts[ks[i]]);
      assert all[..i + 1] == all[..i] + [leaf];
      leaves := leaves + [leaf];
    }
  }

  method ComputeV5(c: Codec, h: Sha3, accounts: Accounts, contracts: Contracts) returns (root: Bytes)
    ensures root == RootV5(c, h, accounts, contracts)
  {
    if accounts == map[] && contracts == map[] {
      return h(EMPTY_STATE_SEED);
    }
    var leaves := HashState(c, h, accounts, contracts);
    root := ComputeRoot(h, leaves);
  }
}
