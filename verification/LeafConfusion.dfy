/**
State proofs and roots under the source's own leaf encoding: exactly when an account and a contract
are encoded alike, what a proof then shows, and the tests on a proof or on a state that rule it out.
*/
module LeafConfusion {
  import opened Common
  import opened Hashing
  import opened Merkle
  import opened StateRoot
  import opened Sorting
  import opened StateProof
  import opened Bincode
  import V5 = StateRootV5
  import V6 = StateRootV6

  // ---------------------------------------------------------------------------
  // When encodings coincide

  /** The account state that a contract's encoding reads as, if any. */
  function ReadsAsAccount(codeHash: Bytes, owner: Bytes, root: Bytes): Option<AccountState>
  {
    ReadAccountBody(ContractBody(codeHash, owner, root))
  }

  /** The code hash, owner and storage root that an account's encoding reads as, if any. */
  function ReadsAsContract(s: AccountState): Option<(Bytes, Bytes, Bytes)>
  {
    ReadContractBody(AccountBody(s))
  }

  /** An account and a contract are encoded alike if and only if they have one address and each reads as the other. */
  lemma EncodedAlikeIff(a: Bytes, s: AccountState, b: Bytes, codeHash: Bytes, owner: Bytes, root: Bytes)
    requires FitsAccount(a, s) && FitsParts(b, codeHash, owner, root)
    ensures Encoding().account(a, s) == Encoding().contract(b, codeHash, owner, root) <==>
            a == b && ReadsAsAccount(codeHash, owner, root) == Some(s)
    ensures Encoding().account(a, s) == Encoding().contract(b, codeHash, owner, root) <==>
            a == b && ReadsAsContract(s) == Some((codeHash, owner, root))
  {
    var x, y := AccountBody(s), ContractBody(codeHash, owner, root);
    AccountBodyBack(s);
    ContractBodyBack(codeHash, owner, root);
    if Str(a) + x == Str(b) + y {
      SameStr(a, x, b, y);
    }
    if ReadsAsAccount(codeHash, owner, root) == Some(s) {
      ReadAccountBodyBack(y);
    }
    if ReadsAsContract(s) == Some((codeHash, owner, root)) {
      ReadContractBodyBack(x);
    }
  }

  /** A test on a contract's own fields: when the bytes of its code hash that would be read as the number of pending unstakes announce more than its encoding can hold, it never reads as an account. For a 32-byte code hash, a 20-byte owner and a 32-byte root that is any number above 3. */
  lemma ManyUnstakesNeverRead(codeHash: Bytes, owner: Bytes, root: Bytes)
    requires |codeHash| >= 24
    requires 16 * ReadU64(codeHash, 16) + 48 >= |ContractBody(codeHash, owner, root)|
    ensures ReadsAsAccount(codeHash, owner, root).None?
  {
    var x := ContractBody(codeHash, owner, root);
    assert x[24..32] == codeHash[16..24];
    var n := 16 * ReadU64(x, 24);
    if |x| >= 32 + n {
      var tail := x[32..][n..];
      assert |tail| <= 16;
      assert |tail| == 16 ==> tail[16..] == [];
    }
  }

  lemma UsualSizesNeverRead(codeHash: Bytes, owner: Bytes, root: Bytes)
    requires |codeHash| == 32 && |owner| == 20 && |root| == 32 && ReadU64(codeHash, 16) > 3
    ensures ReadsAsAccount(codeHash, owner, root).None?
  {
    ManyUnstakesNeverRead(codeHash, owner, root);
  }

  // ---------------------------------------------------------------------------
  // Proofs

  /** An account proof can be about a stored contract exactly when that contract, at the same address, is what the account reads as. */
  lemma AccountConfusedIff(h: Sha3, address: Bytes, s: AccountState, accounts: Accounts, contracts: Contracts)
    requires Digest32(h) && Fits(accounts, contracts) && FitsAccount(address, s)
    ensures Encoding().account(address, s) in ContractInputs(Encoding(), h, contracts) <==>
            && address in contracts
            && var x := contracts[address];
               ReadsAsContract(s) == Some((CodeHash(h, x), x.owner, StorageRoot(Encoding(), h, x.storage)))
  {
    var e := Encoding();
    forall k | k in contracts
      ensures e.account(address, s) == ContractInput(e, h, k, contracts[k]) <==>
              address == k && ReadsAsContract(s)
                           == Some((CodeHash(h, contracts[k]), contracts[k].owner, StorageRoot(e, h, contracts[k].storage)))
    {
      var x := contracts[k];
      ContractPartsFit(e, h, k, x);
      EncodedAlikeIff(address, s, k, CodeHash(h, x), x.owner, StorageRoot(e, h, x.storage));
    }
  }

  /** A storage proof can be about a stored account exactly when that account, at the same address, is what the contract reads as. */
  lemma ContractConfusedIff(p: StorageProof, accounts: Accounts, contracts: Contracts)
    requires Fits(accounts, contracts) && FitsProof(p)
    ensures ProofContract(Encoding(), p) in AccountInputs(Encoding(), accounts) <==>
            && p.contractAddress in accounts
            && ReadsAsAccount(p.codeHash, p.owner, p.storageRoot) == Some(accounts[p.contractAddress])
  {
    var e := Encoding();
    forall a | a in accounts
      ensures e.account(a, accounts[a]) == ProofContract(e, p) <==>
              a == p.contractAddress && ReadsAsAccount(p.codeHash, p.owner, p.storageRoot) == Some(accounts[a])
    {
      EncodedAlikeIff(a, accounts[a], p.contractAddress, p.codeHash, p.owner, p.storageRoot);
    }
    var alike := ReadsAsAccount(p.codeHash, p.owner, p.storageRoot);
    if p.contractAddress in accounts && alike == Some(accounts[p.contractAddress]) {
      assert e.account(p.contractAddress, accounts[p.contractAddress]) == ProofContract(e, p);
    }
  }

  /** An accepted account proof whose state does not read as a contract, which the verifier can test, shows the real state, or there is a collision. */
  lemma AccountProofReal(h: Sha3, p: AccountProof, accounts: Accounts, contracts: Contracts)
    requires Digest32(h) && Fits(accounts, contracts) && FitsAccount(p.address, p.state)
    requires AccountProofValid(Encoding(), h, p) && p.stateRoot == RootV5(Encoding(), h, accounts, contracts)
    requires ReadsAsContract(p.state).None?
    ensures (p.address in accounts && accounts[p.address] == p.state)
            || Collision(h, StateInputs(Encoding(), h, accounts, contracts), AccountProofInputs(Encoding(), h, p))
  {
    EncodingInjective();
    AccountProofSound(Encoding(), h, p, accounts, contracts);
    AccountConfusedIff(h, p.address, p.state, accounts, contracts);
  }

  /** An accepted storage proof whose contract does not read as an account, which the verifier can test, shows the real value, or there is a collision. */
  lemma StorageProofReal(h: Sha3, p: StorageProof, accounts: Accounts, contracts: Contracts)
    requires Digest32(h) && Fits(accounts, contracts) && FitsProof(p)
    requires StorageProofValid(Encoding(), h, p) && p.stateRoot == RootV5(Encoding(), h, accounts, contracts)
    requires ReadsAsAccount(p.codeHash, p.owner, p.storageRoot).None?
    ensures (p.contractAddress in contracts && p.key in contracts[p.contractAddress].storage
             && contracts[p.contractAddress].storage[p.key] == p.value)
            || Collision(h, StateInputs(Encoding(), h, accounts, contracts), StorageProofInputs(Encoding(), h, p))
            || (p.contractAddress in contracts
                && Collision(h, StorageInputs(Encoding(), h, contracts[p.contractAddress].storage),
                             StorageProofInputs(Encoding(), h, p)))
  {
    EncodingInjective();
    StorageProofSound(Encoding(), h, p, accounts, contracts);
    ContractConfusedIff(p, accounts, contracts);
  }

  // ---------------------------------------------------------------------------
  // A contract that reads as an account

  function ZeroHash(): (b: Bytes)
    ensures |b| == 32
  {
    U64(0) + U64(0) + U64(0) + U64(0)
  }

  function Padding(): (b: Bytes)
    ensures |b| == 11
  {
    seq(11, _ => 0)
  }

  /** An option tag and a length, padded to the size of an address. */
  function OddOwner(): (b: Bytes)
    ensures |b| == 20
  {
    [1] + U64(51) + Padding()
  }

  /** What the contract with that owner and an all-zero code hash reads as. */
  function PhantomState(root: Bytes): AccountState
  {
    AccountState(32, 0, 0, [], 0, 20, Some(Padding() + Str(root)))
  }

  lemma PhantomBody(root: Bytes)
    requires |root| == 32
    ensures AccountBody(PhantomState(root)) == ContractBody(ZeroHash(), OddOwner(), root)
    ensures FitsState(PhantomState(root))
  {
    PhantomShape(PhantomState(root), ZeroHash(), OddOwner(), root, 0, 51, Padding());
  }

  /** The two bodies, part by part. */
  lemma PhantomShape(s: AccountState, codeHash: Bytes, owner: Bytes, root: Bytes, zero: nat, length: nat, pad: Bytes)
    requires s.nonce == s.stakedBalance == s.validatorActiveFromHeight == zero == 0 && s.pendingUnstakes == []
    requires s.publicKey == Some(pad + Str(root)) && length == |pad| + 8 + |root|
    requires codeHash == U64(zero) + U64(zero) + U64(zero) + U64(zero) && s.balance == |codeHash|
    requires owner == [1] + U64(length) + pad && s.jailedUntilHeight == |owner|
    ensures AccountBody(s) == ContractBody(codeHash, owner, root)
  {
    var w, z, q, l, r := U64(s.balance), U64(zero), U64(s.jailedUntilHeight), U64(length), Str(root);
    ShapeOfAccount(s, zero, length, pad + r);
    assert ContractBody(codeHash, owner, root) == (w + (z + z + z + z)) + ((q + ([1] + l + pad)) + r);
    Regroup(w, z, q, [1], l, pad, r);
  }

  lemma ShapeOfAccount(s: AccountState, zero: nat, length: nat, key: Bytes)
    requires s.nonce == s.stakedBalance == s.validatorActiveFromHeight == zero == 0 && s.pendingUnstakes == []
    requires s.publicKey == Some(key) && length == |key|
    ensures var w, z, q, l := U64(s.balance), U64(zero), U64(s.jailedUntilHeight), U64(length);
            AccountBody(s) == (w + z + z + z) + ([] + (z + q + ([1] + (l + key))))
  {
    assert |s.pendingUnstakes| == zero;
    assert Unstakes(s.pendingUnstakes) == [];
  }

  lemma Regroup(w: Bytes, z: Bytes, q: Bytes, t: Bytes, l: Bytes, d: Bytes, r: Bytes)
    ensures (w + z + z + z) + ([] + (z + q + (t + (l + (d + r))))) == (w + (z + z + z + z)) + ((q + (t + l + d)) + r)
  {
    var x := z + z + z;
    var y := t + l + d + r;
    assert t + (l + (d + r)) == y && (q + (t + l + d)) + r == q + y;
    assert w + z + z + z == w + x && z + z + z + z == x + z;
  }

  lemma StorageRootSize(h: Sha3, storage: map<Bytes, Bytes>)
    requires Digest32(h)
    ensures |StorageRoot(Encoding(), h, storage)| == 32
  {
    var leaves := StorageLeaves(Encoding(), h, storage);
    if leaves != [] {
      LeafLevelDigests(h, leaves);
      RootIsDigest(h, LeafLevel(h, leaves));
    }
  }

  /** A state that stores nothing but such a contract, at any address and with any storage, accepts a proof of an account that does not exist. */
  lemma PhantomAccount(h: Sha3, address: Bytes, storage: map<Bytes, Bytes>) returns (p: AccountProof)
    requires Digest32(h) && |address| <= U64_MAX
    ensures FitsAccount(address, p.state) && p.address == address && AccountProofValid(Encoding(), h, p)
    ensures p.stateRoot == RootV5(Encoding(), h, map[], map[address := ContractState(ZeroHash(), [], storage, OddOwner())])
  {
    var x := ContractState(ZeroHash(), [], storage, OddOwner());
    var root, contracts := StorageRoot(Encoding(), h, storage), map[address := x];
    StorageRootSize(h, storage);
    PhantomBody(root);
    assert Encoding().account(address, PhantomState(root)) == ContractInput(Encoding(), h, address, contracts[address]);
    p := ContractProvesAccount(Encoding(), h, address, PhantomState(root), map[], contracts);
  }

  /** A state that stores nothing but the account it reads as accepts proofs of every slot of any storage of a contract that does not exist. */
  lemma PhantomSlot(h: Sha3, address: Bytes, storage: map<Bytes, Bytes>, key: Bytes) returns (p: StorageProof)
    requires Digest32(h) && key in storage
    ensures p.contractAddress == address && p.key == key && p.value == storage[key] && StorageProofValid(Encoding(), h, p)
    ensures p.stateRoot == RootV5(Encoding(), h, map[address := PhantomState(StorageRoot(Encoding(), h, storage))], map[])
  {
    var root := StorageRoot(Encoding(), h, storage);
    var accounts := map[address := PhantomState(root)];
    StorageRootSize(h, storage);
    PhantomBody(root);
    assert Encoding().account(address, accounts[address]) == Encoding().contract(address, ZeroHash(), OddOwner(), root);
    p := AccountProvesSlot(Encoding(), h, address, ZeroHash(), OddOwner(), storage, key, accounts, map[]);
  }

  /** The state with that contract and the state with that account have one v5 root. */
  lemma PhantomRoots(h: Sha3, address: Bytes, storage: map<Bytes, Bytes>)
    requires Digest32(h)
    ensures RootV5(Encoding(), h, map[], map[address := ContractState(ZeroHash(), [], storage, OddOwner())])
         == RootV5(Encoding(), h, map[address := PhantomState(StorageRoot(Encoding(), h, storage))], map[])
  {
    var e, root, x := Encoding(), StorageRoot(Encoding(), h, storage), ContractState(ZeroHash(), [], storage, OddOwner());
    StorageRootSize(h, storage);
    PhantomBody(root);
    OneContractLeaf(e, h, address, x);
    OneAccountLeaf(e, h, address, PhantomState(root));
  }

  lemma OneContractLeaf(c: Codec, h: Sha3, address: Bytes, x: ContractState)
    ensures StateLeaves(c, h, map[], map[address := x]) == [h(ContractInput(c, h, address, x))]
  {
    var none: Accounts := map[];
    var one: Contracts := map[address := x];
    assert none.Keys == {} && one.Keys == {address};
    OneKey(address);
    NoKey();
  }

  lemma OneAccountLeaf(c: Codec, h: Sha3, address: Bytes, s: AccountState)
    ensures StateLeaves(c, h, map[address := s], map[]) == [h(c.account(address, s))]
  {
    var none: Contracts := map[];
    var one: Accounts := map[address := s];
    assert none.Keys == {} && one.Keys == {address};
    OneKey(address);
    NoKey();
  }

  lemma OneKey(k: Bytes)
    ensures SortedKeys({k}) == [k]
  {
    assert Enumerates([k], {k});
    EnumerationUnique([k], SortedKeys({k}), {k});
  }

  lemma NoKey()
    ensures SortedKeys({}) == []
  {
    EnumerationSize(SortedKeys({}), {});
  }

  // ---------------------------------------------------------------------------
  // Roots

  /** No contract of the state reads as an account. */
  ghost predicate Unconfusable(h: Sha3, contracts: Contracts)
  {
    forall a :: a in contracts ==>
      var x := contracts[a]; ReadsAsAccount(CodeHash(h, x), x.owner, StorageRoot(Encoding(), h, x.storage)).None?
  }

  lemma UnconfusableApart(h: Sha3, accounts: Accounts, contracts: Contracts, others: Accounts)
    requires Digest32(h) && Fits(others, contracts) && Fits(accounts, map[]) && Unconfusable(h, contracts)
    ensures V5.Apart(Encoding(), h, accounts, contracts)
  {
    var e := Encoding();
    forall a, b | a in accounts && b in contracts
      ensures e.account(a, accounts[a]) != ContractInput(e, h, b, contracts[b])
    {
      var x := contracts[b];
      ContractPartsFit(e, h, b, x);
      assert FitsAccount(a, accounts[a]);
      EncodedAlikeIff(a, accounts[a], b, CodeHash(h, x), x.owner, StorageRoot(e, h, x.storage));
    }
  }

  /** Under the source's encoding, two states with one v5 root whose contracts never read as accounts are the same state, or hashing them collided. */
  lemma SourceRootV5Binds(h: Sha3, accounts: Accounts, contracts: Contracts, accounts': Accounts, contracts': Contracts)
    requires Digest32(h) && Fits(accounts, contracts) && Fits(accounts', contracts')
    requires Unconfusable(h, contracts) && Unconfusable(h, contracts')
    requires RootV5(Encoding(), h, accounts, contracts) == RootV5(Encoding(), h, accounts', contracts')
    ensures var all := V5.V5Inputs(Encoding(), h, accounts, contracts) + V5.V5Inputs(Encoding(), h, accounts', contracts');
            V6.SameState(h, accounts, contracts, accounts', contracts') || Collision(h, all, all)
  {
    EncodingInjective();
    UnconfusableApart(h, accounts, contracts', accounts');
    UnconfusableApart(h, accounts', contracts, accounts);
    V5.RootV5Binds(Encoding(), h, accounts, contracts, accounts', contracts');
  }

  /** Under the source's encoding, two states with one v6 root are the same state, or hashing them collided; no confusion is possible there. */
  lemma SourceRootV6Binds(h: Sha3, accounts: Accounts, contracts: Contracts, accounts': Accounts, contracts': Contracts)
    requires Digest32(h) && Fits(accounts, contracts) && Fits(accounts', contracts')
    requires V6.RootV6(Encoding(), h, accounts, contracts) == V6.RootV6(Encoding(), h, accounts', contracts')
    ensures var all := V6.V6Inputs(Encoding(), h, accounts, contracts) + V6.V6Inputs(Encoding(), h, accounts', contracts');
            V6.SameState(h, accounts, contracts, accounts', contracts') || Collision(h, all, all)
  {
    EncodingInjective();
    V6.RootV6Binds(Encoding(), h, accounts, contracts, accounts', contracts');
  }
}
