/**
The v6 state root (`compute_v6_smt` of `src/core/state_root.rs`): every account and contract goes
into a sparse trie under the hash of its kind-prefixed address. Two states with one v6 root are
the same state, or hashing them produced a collision.
*/
module StateRootV6 {
  import opened Common
  import opened Hashing
  import opened Sorting
  import opened StateRoot
  import M = Merkle
  import MS = MerkleSoundness
  import SP = StateProof
  import T = SparseTrie
  import B = TrieBinding

  function AccountKeyInput(address: Bytes): Bytes { [0x00] + address }

  function ContractKeyInput(address: Bytes): Bytes { [0x01] + address }

  /** The trie after inserting the accounts `ks` in order. */
  ghost function WithAccounts(c: Codec, h: Sha3, accounts: Accounts, ks: seq<Bytes>): T.Leaves
  {
    if ks == [] then map[]
    else
      var k, before := ks[|ks| - 1], WithAccounts(c, h, accounts, ks[..|ks| - 1]);
      if k in accounts then before[h(AccountKeyInput(k)) := AccountLeaf(c, h, k, accounts[k])] else before
  }

  /** The trie after inserting the contracts `ks` in order as well. */
  ghost function WithContracts(c: Codec, h: Sha3, contracts: Contracts, ks: seq<Bytes>, base: T.Leaves): T.Leaves
  {
    if ks == [] then base
    else
      var k, before := ks[|ks| - 1], WithContracts(c, h, contracts, ks[..|ks| - 1], base);
      if k in contracts then before[h(ContractKeyInput(k)) := h(ContractInput(c, h, k, contracts[k]))] else before
  }

  ghost function V6Leaves(c: Codec, h: Sha3, accounts: Accounts, contracts: Contracts): T.Leaves
  {
    WithContracts(c, h, contracts, SortedKeys(contracts.Keys),
                  WithAccounts(c, h, accounts, SortedKeys(accounts.Keys)))
  }

  ghost function RootV6(c: Codec, h: Sha3, accounts: Accounts, contracts: Contracts): Bytes
  {
    T.TrieRoot(h, V6Leaves(c, h, accounts, contracts))
  }

  lemma NextAccount(c: Codec, h: Sha3, accounts: Accounts, ks: seq<Bytes>, i: nat)
    requires i < |ks| && ks[i] in accounts
    ensures WithAccounts(c, h, accounts, ks[..i + 1])
         == WithAccounts(c, h, accounts, ks[..i])[h(AccountKeyInput(ks[i])) := AccountLeaf(c, h, ks[i], accounts[ks[i]])]
  {
    assert ks[..i + 1][..i] == ks[..i];
  }

  lemma NextContract(c: Codec, h: Sha3, contracts: Contracts, ks: seq<Bytes>, base: T.Leaves, i: nat)
    requires i < |ks| && ks[i] in contracts
    ensures WithContracts(c, h, contracts, ks[..i + 1], base)
         == WithContracts(c, h, contracts, ks[..i], base)
              [h(ContractKeyInput(ks[i])) := h(ContractInput(c, h, ks[i], contracts[ks[i]]))]
  {
    assert ks[..i + 1][..i] == ks[..i];
  }

  method InsertAccount(c: Codec, h: Sha3, address: Bytes, state: AccountState, trie: T.SparseMerkleTrie)
    requires Digest32(h) && trie.Valid()
    modifies trie
    ensures trie.Valid() && trie.leaves == old(trie.leaves)[h(AccountKeyInput(address)) := AccountLeaf(c, h, address, state)]
  {
    trie.Insert(h(AccountKeyInput(address)), AccountLeaf(c, h, address, state));
  }

  method InsertContract(c: Codec, h: Sha3, address: Bytes, x: ContractState, trie: T.SparseMerkleTrie)
    requires Digest32(h) && trie.Valid()
    modifies trie
    ensures trie.Valid() && trie.leaves == old(trie.leaves)[h(ContractKeyInput(address)) := h(ContractInput(c, h, address, x))]
  {
    var leaf := HashContract(c, h, address, x);
    trie.Insert(h(ContractKeyInput(address)), leaf);
  }

  method InsertAccounts(c: Codec, h: Sha3, accounts: Accounts, trie: T.SparseMerkleTrie)
    requires Digest32(h) && trie.Valid() && trie.h == h && trie.leaves == map[]
    modifies trie
    ensures trie.Valid() && trie.leaves == WithAccounts(c, h, accounts, SortedKeys(accounts.Keys))
  {
    var ks := SortKeys(accounts.Keys);
    for i := 0 to |ks|
      invariant trie.Valid() && trie.leaves == WithAccounts(c, h, accounts, ks[..i])
    {
      assert ks[i] in accounts.Keys;
      NextAccount(c, h, accounts, ks, i);
      InsertAccount(c, h, ks[i], accounts[ks[i]], trie);
    }
    assert ks[..|ks|] == ks;
  }

  method InsertContracts(c: Codec, h: Sha3, contracts: Contracts, trie: T.SparseMerkleTrie)
    requires Digest32(h) && trie.Valid() && trie.h == h
    modifies trie
    ensures trie.Valid()
    ensures trie.leaves == WithContracts(c, h, contracts, SortedKeys(contracts.Keys), old(trie.leaves))
  {
    var ks := SortKeys(contracts.Keys);
    for i := 0 to |ks|
      invariant trie.Valid() && trie.leaves == WithContracts(c, h, contracts, ks[..i], old(trie.leaves))
    {
      assert ks[i] in contracts.Keys;
      NextContract(c, h, contracts, ks, old(trie.leaves), i);
      InsertContract(c, h, ks[i], contracts[ks[i]], trie);
    }
    assert ks[..|ks|] == ks;
  }

  /** `compute_v6_smt`. */
  method ComputeV6(c: Codec, h: Sha3, accounts: Accounts, contracts: Contracts) returns (root: Bytes)
    requires Digest32(h)
    ensures root == RootV6(c, h, accounts, contracts)
  {
    var trie := new T.SparseMerkleTrie(h);
    InsertAccounts(c, h, accounts, trie);
    InsertContracts(c, h, contracts, trie);
    root := trie.Root();
  }

  /** `compute_at_protocol`: the trie from version 6 on. */
  method ComputeAtProtocol(c: Codec, h: Sha3, accounts: Accounts, contracts: Contracts, version: nat) returns (root: Bytes)
    requires Digest32(h)
    ensures root == if version >= 6 then RootV6(c, h, accounts, contracts) else RootV5(c, h, accounts, contracts)
  {
    if version >= 6 {
      root := ComputeV6(c, h, accounts, contracts);
    } else {
      root := ComputeV5(c, h, accounts, contracts);
    }
  }

  // ---------------------------------------------------------------------------
  // Storage roots bind storage

  ghost predicate NoRepeats(s: seq<Bytes>)
  {
    forall i, j :: 0 <= i < j < |s| ==> s[i] != s[j]
  }

  /** Lists without repeats that share a padded tree are equal, whatever their lengths. */
  lemma SameTreeNoRepeats(a: seq<Bytes>, b: seq<Bytes>)
    requires a != [] && b != [] && MS.SameTree(a, b) && NoRepeats(a) && NoRepeats(b)
    ensures a == b
  {
    if |a| < |b| { LongerRepeats(a, b); }
    if |b| < |a| {
      forall i: nat
        ensures MS.SameSlot(b, a, i)
      { assert MS.SameSlot(a, b, i); }
      LongerRepeats(b, a);
    }
    forall i | 0 <= i < |a|
      ensures a[i] == b[i]
    {
      MS.SlotInRange(|a|, i);
      assert MS.SameSlot(a, b, i);
    }
  }

  lemma LongerRepeats(a: seq<Bytes>, b: seq<Bytes>)
    requires a != [] && |a| < |b| && MS.SameTree(a, b)
    ensures !NoRepeats(b)
  {
    var n := |a|;
    var s := MS.Slot(n, n);
    assert MS.SameSlot(a, b, n) && MS.SameSlot(a, b, s);
    MS.SlotInRange(|b|, n);
    MS.SlotInRange(|b|, s);
    MS.SlotInRange(n, s);
    assert b[s] == b[n];
  }

  /** No two strings of `all` have one digest. */
  ghost predicate CollisionFree(h: Sha3, all: set<Bytes>)
  {
    !Collision(h, all, all)
  }

  lemma Distinct(h: Sha3, all: set<Bytes>, x: Bytes, y: Bytes)
    requires CollisionFree(h, all) && x in all && y in all && h(x) == h(y)
    ensures x == y
  {
    SameDigest(h, x, y, all, all);
  }

  lemma NoCollisionWithin(h: Sha3, all: set<Bytes>, xs: set<Bytes>, ys: set<Bytes>)
    requires CollisionFree(h, all) && xs <= all && ys <= all
    ensures !Collision(h, xs, ys)
  {
    if Collision(h, xs, ys) { CollisionGrows(h, xs, ys, all, all); }
  }

  lemma StorageLeavesDistinct(c: Codec, h: Sha3, s: map<Bytes, Bytes>, all: set<Bytes>)
    requires Injective(c) && FitsStorage(s) && CollisionFree(h, all) && SP.StorageInputs(c, h, s) <= all
    ensures NoRepeats(StorageLeaves(c, h, s))
  {
    var ks, leaves := SortedKeys(s.Keys), StorageLeaves(c, h, s);
    forall i, j | 0 <= i < j < |leaves|
      ensures leaves[i] != leaves[j]
    {
      SP.StorageLeafAt(c, h, s, i);
      SP.StorageLeafAt(c, h, s, j);
      if leaves[i] == leaves[j] { Distinct(h, all, c.slot(ks[i], s[ks[i]]), c.slot(ks[j], s[ks[j]])); }
    }
  }

  /** Equal leaf lists come from equal storage. */
  lemma StorageFromLeaves(c: Codec, h: Sha3, s: map<Bytes, Bytes>, s': map<Bytes, Bytes>, all: set<Bytes>)
    requires Injective(c) && FitsStorage(s) && FitsStorage(s') && CollisionFree(h, all)
    requires SP.StorageInputs(c, h, s) <= all && SP.StorageInputs(c, h, s') <= all
    requires StorageLeaves(c, h, s) == StorageLeaves(c, h, s')
    ensures forall k :: k in s ==> k in s' && s'[k] == s[k]
  {
    var ks, ks' := SortedKeys(s.Keys), SortedKeys(s'.Keys);
    forall k | k in s
      ensures k in s' && s'[k] == s[k]
    {
      assert k in ks;
      var i :| 0 <= i < |ks| && ks[i] == k;
      SP.StorageLeafAt(c, h, s, i);
      SP.StorageLeafAt(c, h, s', i);
      Distinct(h, all, c.slot(k, s[k]), c.slot(ks'[i], s'[ks'[i]]));
    }
  }

  lemma EmptyRootDiffers(h: Sha3, leaves: seq<Bytes>, all: set<Bytes>)
    requires Digest32(h) && CollisionFree(h, all) && leaves != []
    requires M.RootInputs(h, []) <= all && M.RootInputs(h, leaves) <= all
    ensures M.MerkleRoot(h, []) != M.MerkleRoot(h, leaves)
  {
    if M.MerkleRoot(h, []) == M.MerkleRoot(h, leaves) {
      var level := M.LeafLevel(h, leaves);
      var proof := MS.ProofAt(h, level, 0);
      MS.ProofAtFolds(h, level, 0);
      var leaf := leaves[MS.Slot(|leaves|, 0)];
      MS.EmptyRootAcceptsNothing(h, leaf, proof, 0);
      NoCollisionWithin(h, all, M.RootInputs(h, []), M.VerifyInputs(h, leaf, proof, 0));
    }
  }

  /** Without collisions a storage root determines the storage, even though the tree pads odd levels. */
  lemma StorageRootBinds(c: Codec, h: Sha3, s: map<Bytes, Bytes>, s': map<Bytes, Bytes>, all: set<Bytes>)
    requires Digest32(h) && Injective(c) && FitsStorage(s) && FitsStorage(s') && CollisionFree(h, all)
    requires SP.StorageInputs(c, h, s) <= all && SP.StorageInputs(c, h, s') <= all
    requires StorageRoot(c, h, s) == StorageRoot(c, h, s')
    ensures s == s'
  {
    var a, b := StorageLeaves(c, h, s), StorageLeaves(c, h, s');
    if a == [] && b != [] { EmptyRootDiffers(h, b, all); }
    if a != [] && b == [] { EmptyRootDiffers(h, a, all); }
    if a != [] && b != [] {
      MS.RootsDecideTree(h, a, b);
      NoCollisionWithin(h, all, M.RootInputs(h, b), M.RootInputs(h, a));
      StorageLeavesDistinct(c, h, s, all);
      StorageLeavesDistinct(c, h, s', all);
      SameTreeNoRepeats(a, b);
    }
    StorageFromLeaves(c, h, s, s', all);
    StorageFromLeaves(c, h, s', s, all);
    assert s.Keys == s'.Keys;
  }

  // ---------------------------------------------------------------------------
  // The v6 root binds the state

  /** Every account and contract is in the trie under its key, and nothing else is. */
  ghost predicate Holds(c: Codec, h: Sha3, accounts: Accounts, contracts: Contracts, m: T.Leaves)
  {
    && (forall a {:trigger HasAccount(c, h, accounts, m, a)} :: a in accounts ==> HasAccount(c, h, accounts, m, a))
    && (forall a {:trigger HasContract(c, h, contracts, m, a)} :: a in contracts ==> HasContract(c, h, contracts, m, a))
    && (forall k {:trigger KeyOfState(h, accounts, contracts, k)} :: k in m ==> KeyOfState(h, accounts, contracts, k))
  }

  ghost predicate KeyOfState(h: Sha3, accounts: Accounts, contracts: Contracts, k: Bytes)
  {
    || (exists a :: a in accounts && k == h(AccountKeyInput(a)))
    || (exists a :: a in contracts && k == h(ContractKeyInput(a)))
  }

  ghost predicate HasAccount(c: Codec, h: Sha3, accounts: Accounts, m: T.Leaves, a: Bytes)
    requires a in accounts
  {
    h(AccountKeyInput(a)) in m && m[h(AccountKeyInput(a))] == h(c.account(a, accounts[a]))
  }

  ghost predicate HasContract(c: Codec, h: Sha3, contracts: Contracts, m: T.Leaves, a: Bytes)
    requires a in contracts
  {
    h(ContractKeyInput(a)) in m && m[h(ContractKeyInput(a))] == h(ContractInput(c, h, a, contracts[a]))
  }

  ghost function KeyInputs(accounts: Accounts, contracts: Contracts): set<Bytes>
  {
    (set a | a in accounts :: AccountKeyInput(a)) + (set a | a in contracts :: ContractKeyInput(a))
  }

  ghost function AllStorageInputs(c: Codec, h: Sha3, contracts: Contracts): set<Bytes>
  {
    set a, x | a in contracts && x in SP.StorageInputs(c, h, contracts[a].storage) :: x
  }

  /** Everything hashed on the way to a v6 root, code bytes aside. */
  ghost function V6Inputs(c: Codec, h: Sha3, accounts: Accounts, contracts: Contracts): set<Bytes>
  {
    KeyInputs(accounts, contracts) + SP.AccountInputs(c, accounts) + SP.ContractInputs(c, h, contracts)
    + AllStorageInputs(c, h, contracts) + B.SubInputs(h, V6Leaves(c, h, accounts, contracts), [])
  }

  lemma KindsDiffer(a: Bytes, b: Bytes)
    ensures AccountKeyInput(a) != ContractKeyInput(b)
    ensures AccountKeyInput(a) == AccountKeyInput(b) ==> a == b
    ensures ContractKeyInput(a) == ContractKeyInput(b) ==> a == b
  {
    assert AccountKeyInput(a)[0] != ContractKeyInput(b)[0];
    assert AccountKeyInput(a)[1..] == a && AccountKeyInput(b)[1..] == b;
    assert ContractKeyInput(a)[1..] == a && ContractKeyInput(b)[1..] == b;
  }

  lemma {:induction false} AccountsHeld(c: Codec, h: Sha3, accounts: Accounts, ks: seq<Bytes>, all: set<Bytes>)
    requires Digest32(h) && CollisionFree(h, all) && KeyInputs(accounts, map[]) <= all
    requires forall k :: k in ks ==> k in accounts
    ensures var m := WithAccounts(c, h, accounts, ks);
            && T.Keyed(m)
            && (forall a :: a in ks ==> HasAccount(c, h, accounts, m, a))
            && (forall k :: k in m ==> exists a :: a in accounts && k == h(AccountKeyInput(a)))
  {
    if ks != [] {
      var n := |ks| - 1;
      var last, init := ks[n], ks[..n];
      AccountsHeld(c, h, accounts, init, all);
      assert last in ks;
      assert AccountKeyInput(last) in all;
      forall a | a in ks
        ensures HasAccount(c, h, accounts, WithAccounts(c, h, accounts, ks), a)
      {
        assert AccountKeyInput(a) in all;
        if a != last {
          assert a in init;
          KindsDiffer(a, last);
          if h(AccountKeyInput(a)) == h(AccountKeyInput(last)) {
            Distinct(h, all, AccountKeyInput(a), AccountKeyInput(last));
          }
        }
      }
    }
  }

  lemma {:induction false} ContractsHeld(
    c: Codec, h: Sha3, accounts: Accounts, contracts: Contracts, ks: seq<Bytes>, base: T.Leaves, all: set<Bytes>)
    requires Digest32(h) && CollisionFree(h, all) && KeyInputs(accounts, contracts) <= all
    requires forall k :: k in ks ==> k in contracts
    requires T.Keyed(base)
    requires forall a :: a in accounts ==> HasAccount(c, h, accounts, base, a)
    requires forall k :: k in base ==> exists a :: a in accounts && k == h(AccountKeyInput(a))
    ensures var m := WithContracts(c, h, contracts, ks, base);
            && T.Keyed(m)
            && (forall a :: a in accounts ==> HasAccount(c, h, accounts, m, a))
            && (forall a :: a in ks ==> HasContract(c, h, contracts, m, a))
            && (forall k :: k in m ==> KeyOfState(h, accounts, contracts, k))
  {
    if ks != [] {
      var n := |ks| - 1;
      var last, init := ks[n], ks[..n];
      ContractsHeld(c, h, accounts, contracts, init, base, all);
      var before, m := WithContracts(c, h, contracts, init, base), WithContracts(c, h, contracts, ks, base);
      assert last in ks;
      assert ContractKeyInput(last) in all;
      forall a | a in accounts
        ensures HasAccount(c, h, accounts, m, a)
      {
        assert HasAccount(c, h, accounts, before, a);
        assert AccountKeyInput(a) in all;
        KindsDiffer(a, last);
        if h(AccountKeyInput(a)) == h(ContractKeyInput(last)) {
          Distinct(h, all, AccountKeyInput(a), ContractKeyInput(last));
        }
      }
      forall a | a in ks
        ensures HasContract(c, h, contracts, m, a)
      {
        assert ContractKeyInput(a) in all;
        if a != last {
          assert a in init;
          assert HasContract(c, h, contracts, before, a);
          KindsDiffer(a, last);
          if h(ContractKeyInput(a)) == h(ContractKeyInput(last)) {
            Distinct(h, all, ContractKeyInput(a), ContractKeyInput(last));
          }
        }
      }
    }
  }

  lemma TrieHoldsState(c: Codec, h: Sha3, accounts: Accounts, contracts: Contracts, all: set<Bytes>)
    requires Digest32(h) && CollisionFree(h, all) && KeyInputs(accounts, contracts) <= all
    ensures T.Keyed(V6Leaves(c, h, accounts, contracts))
    ensures Holds(c, h, accounts, contracts, V6Leaves(c, h, accounts, contracts))
  {
    var as_, cs := SortedKeys(accounts.Keys), SortedKeys(contracts.Keys);
    assert KeyInputs(accounts, map[]) <= KeyInputs(accounts, contracts);
    assert forall k :: k in as_ <==> k in accounts.Keys;
    assert forall k :: k in cs <==> k in contracts.Keys;
    AccountsHeld(c, h, accounts, as_, all);
    ContractsHeld(c, h, accounts, contracts, cs, WithAccounts(c, h, accounts, as_), all);
  }

  /** The two states hold the same accounts and the same contracts, code compared by its hash. */
  ghost predicate SameState(h: Sha3, accounts: Accounts, contracts: Contracts, accounts': Accounts, contracts': Contracts)
  {
    && accounts == accounts'
    && contracts.Keys == contracts'.Keys
    && (forall a :: a in contracts ==> SameContract(h, contracts[a], contracts'[a]))
  }

  ghost predicate SameContract(h: Sha3, x: ContractState, y: ContractState)
  {
    CodeHash(h, x) == CodeHash(h, y) && x.owner == y.owner && x.storage == y.storage
  }

  /** An account of one state is in any state with the same trie. */
  lemma AccountCarriesOver(
    c: Codec, h: Sha3, accounts: Accounts, contracts: Contracts, accounts': Accounts, contracts': Contracts,
    m: T.Leaves, all: set<Bytes>, a: Bytes)
    requires Injective(c) && CollisionFree(h, all) && Fits(accounts, contracts) && Fits(accounts', contracts')
    requires Holds(c, h, accounts, contracts, m) && Holds(c, h, accounts', contracts', m)
    requires KeyInputs(accounts, contracts) <= all && KeyInputs(accounts', contracts') <= all
    requires SP.AccountInputs(c, accounts) <= all && SP.AccountInputs(c, accounts') <= all
    requires a in accounts
    ensures a in accounts' && accounts'[a] == accounts[a]
  {
    var k := h(AccountKeyInput(a));
    assert HasAccount(c, h, accounts, m, a) && KeyOfState(h, accounts', contracts', k);
    assert AccountKeyInput(a) in all;
    if a' :| a' in contracts' && k == h(ContractKeyInput(a')) {
      assert ContractKeyInput(a') in all;
      Distinct(h, all, AccountKeyInput(a), ContractKeyInput(a'));
      KindsDiffer(a, a');
    }
    var a' :| a' in accounts' && k == h(AccountKeyInput(a'));
    assert AccountKeyInput(a') in all;
    Distinct(h, all, AccountKeyInput(a), AccountKeyInput(a'));
    KindsDiffer(a, a');
    assert HasAccount(c, h, accounts', m, a);
    assert c.account(a, accounts[a]) in all && c.account(a, accounts'[a]) in all;
    assert FitsAccount(a, accounts[a]) && FitsAccount(a, accounts'[a]);
    Distinct(h, all, c.account(a, accounts[a]), c.account(a, accounts'[a]));
  }

  /** So is a contract, with its owner, code hash and storage. */
  lemma ContractCarriesOver(
    c: Codec, h: Sha3, accounts: Accounts, contracts: Contracts, accounts': Accounts, contracts': Contracts,
    m: T.Leaves, all: set<Bytes>, a: Bytes)
    requires Digest32(h) && Injective(c) && CollisionFree(h, all) && Fits(accounts, contracts) && Fits(accounts', contracts')
    requires Holds(c, h, accounts, contracts, m) && Holds(c, h, accounts', contracts', m)
    requires KeyInputs(accounts, contracts) <= all && KeyInputs(accounts', contracts') <= all
    requires SP.ContractInputs(c, h, contracts) <= all && SP.ContractInputs(c, h, contracts') <= all
    requires AllStorageInputs(c, h, contracts) <= all && AllStorageInputs(c, h, contracts') <= all
    requires a in contracts
    ensures a in contracts' && SameContract(h, contracts[a], contracts'[a])
  {
    var k := h(ContractKeyInput(a));
    assert HasContract(c, h, contracts, m, a) && KeyOfState(h, accounts', contracts', k);
    assert ContractKeyInput(a) in all;
    if a' :| a' in accounts' && k == h(AccountKeyInput(a')) {
      assert AccountKeyInput(a') in all;
      Distinct(h, all, ContractKeyInput(a), AccountKeyInput(a'));
      KindsDiffer(a', a);
    }
    var a' :| a' in contracts' && k == h(ContractKeyInput(a'));
    assert ContractKeyInput(a') in all;
    Distinct(h, all, ContractKeyInput(a), ContractKeyInput(a'));
    KindsDiffer(a, a');
    assert HasContract(c, h, contracts', m, a);
    var x, y := contracts[a], contracts'[a];
    assert ContractInput(c, h, a, x) in all && ContractInput(c, h, a, y) in all;
    ContractPartsFit(c, h, a, x);
    ContractPartsFit(c, h, a, y);
    Distinct(h, all, ContractInput(c, h, a, x), ContractInput(c, h, a, y));
    assert SP.StorageInputs(c, h, x.storage) <= AllStorageInputs(c, h, contracts);
    assert SP.StorageInputs(c, h, y.storage) <= AllStorageInputs(c, h, contracts');
    StorageRootBinds(c, h, x.storage, y.storage, all);
  }

  /** The strings of a state that the argument compares, all but the trie's own. */
  ghost predicate Covers(c: Codec, h: Sha3, accounts: Accounts, contracts: Contracts, all: set<Bytes>)
  {
    && KeyInputs(accounts, contracts) <= all && SP.AccountInputs(c, accounts) <= all
    && SP.ContractInputs(c, h, contracts) <= all && AllStorageInputs(c, h, contracts) <= all
  }

  lemma SameTrieSameAccounts(
    c: Codec, h: Sha3, accounts: Accounts, contracts: Contracts, accounts': Accounts, contracts': Contracts,
    m: T.Leaves, all: set<Bytes>)
    requires Injective(c) && CollisionFree(h, all) && Fits(accounts, contracts) && Fits(accounts', contracts')
    requires Holds(c, h, accounts, contracts, m) && Holds(c, h, accounts', contracts', m)
    requires Covers(c, h, accounts, contracts, all) && Covers(c, h, accounts', contracts', all)
    ensures accounts == accounts'
  {
    forall a | a in accounts
      ensures a in accounts' && accounts'[a] == accounts[a]
    { AccountCarriesOver(c, h, accounts, contracts, accounts', contracts', m, all, a); }
    forall a | a in accounts'
      ensures a in accounts
    { AccountCarriesOver(c, h, accounts', contracts', accounts, contracts, m, all, a); }
    assert accounts.Keys == accounts'.Keys;
  }

  lemma SameTrieSameContracts(
    c: Codec, h: Sha3, accounts: Accounts, contracts: Contracts, accounts': Accounts, contracts': Contracts,
    m: T.Leaves, all: set<Bytes>)
    requires Digest32(h) && Injective(c) && CollisionFree(h, all) && Fits(accounts, contracts) && Fits(accounts', contracts')
    requires Holds(c, h, accounts, contracts, m) && Holds(c, h, accounts', contracts', m)
    requires Covers(c, h, accounts, contracts, all) && Covers(c, h, accounts', contracts', all)
    ensures contracts.Keys == contracts'.Keys
    ensures forall a :: a in contracts ==> SameContract(h, contracts[a], contracts'[a])
  {
    forall a | a in contracts
      ensures a in contracts' && SameContract(h, contracts[a], contracts'[a])
    { ContractCarriesOver(c, h, accounts, contracts, accounts', contracts', m, all, a); }
    forall a | a in contracts'
      ensures a in contracts
    { ContractCarriesOver(c, h, accounts', contracts', accounts, contracts, m, all, a); }
  }

  /**
  Two states with one v6 root are the same state: the same accounts, and the same contracts with
  the same owner, code hash and storage; or, among the strings hashed for either, two collide.
  */
  lemma RootV6Binds(c: Codec, h: Sha3, accounts: Accounts, contracts: Contracts, accounts': Accounts, contracts': Contracts)
    requires Digest32(h) && Injective(c) && Fits(accounts, contracts) && Fits(accounts', contracts')
    requires RootV6(c, h, accounts, contracts) == RootV6(c, h, accounts', contracts')
    ensures var all := V6Inputs(c, h, accounts, contracts) + V6Inputs(c, h, accounts', contracts');
            SameState(h, accounts, contracts, accounts', contracts') || Collision(h, all, all)
  {
    var all := V6Inputs(c, h, accounts, contracts) + V6Inputs(c, h, accounts', contracts');
    if CollisionFree(h, all) {
      var m, m' := V6Leaves(c, h, accounts, contracts), V6Leaves(c, h, accounts', contracts');
      assert Covers(c, h, accounts, contracts, all) && Covers(c, h, accounts', contracts', all);
      TrieHoldsState(c, h, accounts, contracts, all);
      TrieHoldsState(c, h, accounts', contracts', all);
      B.TrieRootBinds(h, m, m');
      NoCollisionWithin(h, all, B.SubInputs(h, m, []), B.SubInputs(h, m', []));
      SameTrieSameAccounts(c, h, accounts, contracts, accounts', contracts', m, all);
      SameTrieSameContracts(c, h, accounts, contracts, accounts', contracts', m, all);
    }
  }
}
