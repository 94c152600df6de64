# CURS3D verification

A Dafny model of the algorithmic core of the CURS3D node, with proofs about whole runs, all inputs
and all interleavings. Verify with `dafny verify dfyconfig.toml`.

What is modelled, in the node's own terms:

- **Fork choice and finality** (`ForkTree`, `BlockTreeStore`, `Finality`, `Node`, `NodeLimits`, and
  exactly, over the inputs alone, `ForkAcceptance`, `FinalityExact`, `NodeExact`). The block tree
  with its heaviest tip, finality boundary and pruning; the finality tracker that counts stake; and
  a node that joins the two. Finalized blocks are never reverted by any run, and two nodes that
  finalize different blocks at one height expose double votes by a third of the stake.
- **Leader schedule** (`Leader`, `LeaderExact`). Stake-weighted draws without replacement; the backup ranks are a
  permutation of the staked validators.
- **Commitments** (`Hashing`, `Merkle`, `MerkleSoundness`, `SparseTrie`, `TrieBinding`, `Sorting`,
  `StateRoot`, `StateProof`, `StateRootV5`, `StateRootV6`, `Bincode`, `LeafConfusion`, `CommitmentShapes`). The Merkle tree
  with duplicated odd nodes, the sparse Merkle trie computed level by level, both state roots, account
  and storage proofs, and the leaf encodings.
- **Block store** (`BlockStore`, `BlockCache`, `StoreInterleaving`, `StoreFloor`). The LRU cursor over a backend refines a plain
  sequence of blocks with a floor; a second model splits its operations at the points where the lock
  is dropped.
- **Snapshot assembly** (`SnapshotSync`, `SnapshotOrder`, `SnapshotStray`, `SnapshotProvenance`). A manifest and its chunks in
  any order.
- **Ledgers** (`Governance`, `GovernanceRuns`, `GovernanceExact`, `Token`, `TokenBook`).

Conventions. Code that updates fields in place is a class whose methods are proved equal to a
function on a value (`View()`), and the theorems are about that function over runs. SHA-3 is any
function with 32-byte output, passed as `h`; no injectivity is assumed. A binding result says that
the claim holds or that two different strings, both members of the finite sets of strings really
hashed by the two sides, have one digest (`Hashing.Collision`). The commitment results hold for any
injective leaf encoding, and `Bincode` writes out the source's. Signature checks, other encodings,
`apply_snapshot` and token address derivation are parameters too. A map iterated in unspecified
order is visited through a choice that the proofs leave open. Integers are unbounded except where
64-bit behaviour is written out: the saturating arithmetic of the finality threshold and of the
execution delay, the supply bound of tokens, and the fixed-width encodings.

Results that came out differently from what the code or its comments suggest:

- Finalizing a stored block above height 0 keeps a tip above it exactly when the block is on the
  canonical chain (`ForkTree.TipSurvivesIffCanonical`); the tip is not chosen again otherwise, and
  `ForkTree.FinalizingAForkLosesTheTip` is such a case.
- The saturating two-thirds test is exact for every tally if and only if the total stake is at most
  half of the 64-bit range (`Finality.SaturationIsExactIff`).
- Votes are pooled by block hash alone: if votes for one hash carry two heights they are counted
  together (`FinalityExact.HeightsArePooled`). With one height for each hash, which the node's own
  test ensures, the tracker is exact (`FinalityExact.AnswersExactly`).
- Roots do not determine lists of different lengths (`MerkleSoundness.RepeatedLastLeafKeepsRoot`);
  `MerkleSoundness.RootsDecideTree` says exactly which lists share a root. Storage roots do
  determine storage, because slot leaves never repeat (`StateRootV6.StorageRootBinds`).
- Overlapping prunes can lower the store's floor. `StoreFloor.FloorFallsIff` says exactly which
  calls do it, `StoreFloor.OverlappingPrunesServePrunedBlock` that a block is then served although a
  prune above it has completed, and `StoreFloor.SerialReadsStayAbove` that serial prunes never do this.
- `prune_below` is documented never to drop genesis (src/core/block_store.rs:238-239). The in-memory
  backend does drop it: `BlockStore.PruneAndReopen` proves that the pruned cursor keeps serving its own
  copy and that opening the store anew is refused if and only if the prune was above the floor;
  `BlockStore.SmallestLoss` is the smallest case.
- A proposal submitted again by the same proposer at the same height with the same kind replaces the
  first one and forgets its votes. `GovernanceRuns.BallotForgottenIff` says this is the only way a
  counted ballot is lost, `GovernanceRuns.ResubmissionForgetsVotes` is such a run, and
  `GovernanceRuns.ReopenedWhileActive` confines it to Active proposals.
- Account and contract leaves are not told apart by their encoding. `LeafConfusion.EncodedAlikeIff`
  says exactly when they coincide; `LeafConfusion.PhantomAccount`, `LeafConfusion.PhantomSlot` and
  `LeafConfusion.PhantomRoots` are states in which they do, so that proofs of things that do not
  exist are accepted and two states share a v5 root; `LeafConfusion.AccountProofReal` and
  `LeafConfusion.StorageProofReal` give tests on a proof under which it can be trusted, and
  `LeafConfusion.SourceRootV5Binds` one on states under which the root can. The v6 root has no such
  problem (`LeafConfusion.SourceRootV6Binds`).
- Two nodes can finalize conflicting blocks without anyone having signed twice at one height exactly
  when the heights differ (`NodeLimits.SilentConflictIff`), although a third of the stake signed for both.
- A restart puts the tree's finality back to genesis while the tracker keeps its height
  (`NodeLimits.RestartAgreesIff`), so the restarted tree moves its tip to old forks that it refused
  before (`NodeLimits.RestartAcceptsOldFork`). Such a fork passes the depth test in front of the tree
  exactly when the finalized block is at most 64 below the head (`NodeLimits.OldForkReachesTreeIff`).
  The guard of `reorg_to_canonical_tip` (src/core/chain/reorg.rs:87-125), which consults the tracker
  and is not part of this model, then keeps the chain itself where it was, and
  `NodeLimits.RestartStopsFinality` shows that votes for it no longer count.
- A snapshot chunk with an index the manifest does not announce is filed like any other. It can make a
  session discard what it collected (`SnapshotStray.LosesChunksIff`), and the session never completes
  (`SnapshotStray.StalledForGood`).

## Model

| member | source | states |
|---|---|---|
| ForkTree.FinalityNeverReverted | src/core/blocktree.rs:53-147 | Between any two points of any run from genesis of inserts, accepted or not, and finalizations of canonical blocks, the later tip descends from the earlier finalized block, the finalized height does not fall, and the first finalized height + 1 blocks of the canonical chain are the same. |
| ForkTree.RunInv | src/core/blocktree.rs:18-112 | Every state of every run keeps the tree invariant: each non-genesis parent is stored one height lower, stored blocks are ancestors or descendants of the finalized block, children lists hold the stored children, weights add up and no block outweighs the tip. |
| ForkTree.PrunedNeverReturns | src/core/blocktree.rs:57-78 | If hashes determine blocks, a block that was stored and is dropped at some point is absent from every later state and is refused by `insert` there. |
| ForkTree.WeightIsPathStake | src/core/blocktree.rs:80-96 | In every reachable tree, pruned or not, a block's weight is the sum of the proposer stakes on its path from genesis. |
| ForkTree.TipMovesOnlyToHeavier | src/core/blocktree.rs:98-111 | Over any stretch of a run the tip stays the same or becomes strictly heavier, so ties keep the earlier tip. |
| ForkTree.ReorgRebuildsChain | src/core/blocktree.rs:135-198 | The old chain cut at the deepest common ancestor, followed by `chain_between`, is exactly the new block's path from genesis. |
| ForkTree.TipSurvivesIffCanonical | src/core/blocktree.rs:202-227 | After finalizing a stored block above height 0 the tip descends from it if and only if the block was on the tip's path before. |
| ForkTree.FinalizingAForkLosesTheTip | src/core/blocktree.rs:202-227 | With two rival children of genesis, finalizing the lighter one removes the tip from the store. |
| ForkAcceptance.InsertStoresIff | src/core/blocktree.rs:53-112 | In every reachable tree, at any finalized height, a block not stored is stored, as it is and with its parent's weight plus its stake, if and only if its parent is stored one height lower and has the finalized block on its path; otherwise the tree stays as it was. |
| ForkAcceptance.InsertAnswers | src/core/blocktree.rs:53-112 | In every reachable tree, the exact conditions, in terms of parents, heights, paths and weights, of each answer: the three refusals, a reorg, or neither. |
| ForkAcceptance.ChildOfTipIsAccepted | src/core/blocktree.rs:53-112 | In every reachable tree a new child of the tip is accepted, and with any stake becomes the tip. |
| ForkAcceptance.FinalizeKeepsIff | src/core/blocktree.rs:202-227 | In every reachable tree, finalizing a canonical block keeps exactly the blocks on its path and those that have it on theirs, untouched. |
| BlockTreeStore.BlockTree.constructor | src/core/blocktree.rs:30-48 | A tree of the given block alone, with tip and finality there and finalized height 0; it satisfies the invariant when the block has height 0. |
| BlockTreeStore.BlockTree.InsertBlock | src/core/blocktree.rs:53-112 | Keeps the invariant, changes the tree by the specified insertion or not at all, and answers with the error of the first failing test, or true exactly when the tip moved to a branch not containing the old tip. |
| BlockTreeStore.BlockTree.CheckBlock | src/core/blocktree.rs:57-78 | The refusal, if any, of a block not stored yet, the first that applies of: at or below the finalized height, unknown parent, height not one above the parent, parent not descending from the finalized block. |
| BlockTreeStore.BlockTree.IsDescendantOf | src/core/blocktree.rs:114-126 | True exactly when the ancestor is on the descendant's path, reflexively, and false for a block that is not stored. |
| BlockTreeStore.BlockTree.CanonicalBlocks | src/core/blocktree.rs:135-147 | The loop returns the blocks of the tip's path from genesis, in order. |
| BlockTreeStore.BlockTree.CommonAncestor | src/core/blocktree.rs:154-180 | For two stored blocks it always finds the deepest block that is an ancestor of both, and answers nothing exactly when one is not stored. |
| BlockTreeStore.BlockTree.ChainBetween | src/core/blocktree.rs:183-198 | The blocks strictly above the ancestor up to the descendant, lowest first. |
| BlockTreeStore.BlockTree.SetFinalized | src/core/blocktree.rs:202-206 | Records hash and height and prunes, for any arguments; keeps the invariant when the block is on the canonical chain, given with its own height and not below the finalized height. |
| BlockTreeStore.BlockTree.PruneBelowFinalized | src/core/blocktree.rs:210-227 | Keeps exactly the ancestors and descendants of the finalized block, whatever order entries are visited in; at finalized height 0 keeps everything. |
| Finality.FinalityTracker.constructor | src/consensus/mod.rs:203-220 | A tracker with no votes at the given finalized block. |
| Finality.FinalityTracker.Add | src/consensus/mod.rs:224-312 | Tracker and answer after one vote: the five refusals, deduplication per voter and height and per pool, the saturating threshold, and the two prunings on finalization. |
| Finality.FinalityTracker.CountStake | src/consensus/mod.rs:279-288 | The summing loop gives the stake of the pool's voters in the snapshot's table. |
| Finality.AccountableSafety | src/consensus/mod.rs:224-312 | If two trackers, fed any votes, finalize blocks whose votes were counted under one well-formed snapshot, validators holding at least a third of its stake signed for both; votes for other blocks may be counted under any snapshots. |
| Finality.ConflictNeedsDoubleVotes | src/consensus/mod.rs:229-288 | When votes carry their block's height, two different blocks finalized at one height mean that validators with at least a third of the stake signed two blocks at that height. |
| Finality.ReplyMeansQuorum | src/consensus/mod.rs:263-309 | A reported finalization is for the block just voted on, and the distinct valid signers fed up to that vote hold two thirds of the total stake. |
| Finality.FinalizesExactlyAtQuorum | src/consensus/mod.rs:229-309 | For any sequence of votes for one block above the finalized height, duplicates, strangers, wrong epochs and bad signatures included, the tracker reports at exactly the vote at which the distinct valid voters' stake times 3 first reaches twice the total. |
| FinalityExact.AnswersExactly | src/consensus/mod.rs:224-312 | A fresh tracker fed any votes for any blocks at any heights reports vote i's block exactly when that vote gives the block two thirds of first votes at its height and no block at its height or above had them before; stated over the votes alone. |
| FinalityExact.FinalizedHeightExactly | src/consensus/mod.rs:224-312 | Its finalized height is the starting one or the greatest height at which some block has two thirds behind it. |
| FinalityExact.NoDoubleBacking | src/consensus/mod.rs:251-257 | No validator backs two blocks at one height. |
| FinalityExact.HeightsArePooled | src/consensus/mod.rs:262-288 | The condition that votes for one block carry one height is needed: votes for one hash at two heights are counted together. |
| Finality.SaturationIsExactIff | src/consensus/mod.rs:290-291 | The saturating threshold equals the exact one for all tallies if and only if the total stake is at most half of the 64-bit range. |
| Finality.FinalizedHeightRises | src/consensus/mod.rs:224-312 | Over any run and any snapshots the finalized height never falls, and every report raises it. |
| Finality.FinalizedWasReported | src/consensus/mod.rs:290-309 | A tracker above its starting height reported its present finalized block at some vote of the run. |
| Node.Blockchain.constructor | src/core/chain/mod.rs:728-788 | A node at genesis, with a fresh tree and tracker that agree. |
| Node.Blockchain.AddFinalityVote | src/core/chain/finality.rs:23-66 | Delivers a vote only for a stored canonical block at its own height and a known epoch, and passes a reported finalization on to the tree; keeps tree and tracker in agreement. |
| Node.ReportIsFinalizable | src/core/chain/finality.rs:23-66 | Whatever the tracker reports is a block the tree may finalize: on the canonical chain and not below the finalized height. |
| NodeExact.VoteIsFedIff | src/core/chain/finality.rs:23-37 | A vote reaches the tracker if and only if it names the block of the canonical chain at its height and that height's epoch, whose snapshot the node has; otherwise nothing changes. |
| NodeExact.NodeFinalizesExactly | src/core/chain/finality.rs:23-66 | In every run, a vote finalizes its block if and only if it does so and completes two thirds for it, none at its height or above having had them before; otherwise the tree stays as it was. |
| Node.NodeNeverRevertsFinality | src/core/chain/finality.rs:23-66 | For a node fed any blocks and votes from genesis, each vote under whatever snapshot table the node has at that moment, the finalized prefix of its canonical chain never changes. |
| Node.FinalizedBlocksShareAThird | src/core/chain/finality.rs:23-66 | For two nodes run on any events that have the same snapshot for the epochs of their finalized blocks, at any heights, validators holding a third of that stake signed for both blocks. |
| Node.ConflictingNodesExposeAThird | src/core/chain/finality.rs:23-66 | If two such nodes have different finalized blocks at one height, validators holding a third of the stake voted for two blocks at that height; only that epoch's snapshot has to be shared. |
| NodeLimits.ConflictWithoutDoubleVotes | src/core/chain/finality.rs:23-66 | For any two chains that part at genesis and have different lengths, two nodes given one each and the only validator's vote for its head finalize the two heads, neither stored by the other, with no double vote at any height. |
| NodeLimits.SilentConflictIff | src/core/chain/finality.rs:23-66 | For any two positive heights there are runs in which nodes finalize conflicting blocks at them without any double vote if and only if the heights differ. |
| NodeLimits.RebuildStoresChain | src/core/chain/mod.rs:856-868 | The tree rebuilt on a restart stores exactly the blocks of the chain, with finality at genesis. |
| NodeLimits.RestartAgreesIff | src/core/chain/mod.rs:856-880 | After a restart the tracker has its old finalized block and the tree has finality at genesis; the node's invariant holds if and only if nothing had been finalized. |
| NodeLimits.InsertLeavesBlockIff | src/core/blocktree.rs:53-112 | An insert moves the tip off the descendants of a stored block if and only if the new block is acceptable, outweighs the tip and does not build on that block. |
| NodeLimits.RestartAcceptsOldFork | src/core/chain/mod.rs:856-880 | A new block on any canonical block below the finalized one is refused by the node, but after a restart, if it outweighs the tip, it becomes the tree's tip and leaves the finalized block off the canonical path. |
| NodeLimits.RestartStopsFinality | src/core/chain/finality.rs:23-36 | Once that has happened no vote for one of the node's own blocks above the fork point reaches the tracker. |
| NodeLimits.OldForkReachesTreeIff | src/core/chain/reorg.rs:24-32 | The depth test lets some block at or below the finalized height through to the tree if and only if the finalized block is at most 64 below the head. |
| Leader.SlotLeaderExcluding | src/consensus/mod.rs:706-748 | The subtracting loop returns the candidate whose share contains the slot's number, candidates being the validators outside the excluded set. |
| Leader.SlotLeaderAtRank | src/consensus/mod.rs:671-701 | The repeated draws return the last leader found when each draw excludes those before it. |
| Leader.PickFinds | src/consensus/mod.rs:735-748 | A ticket below the total stake always falls to a candidate with stake, so the last-resort fallback is unreachable. |
| Leader.StakeManyTickets | src/consensus/mod.rs:721-743 | Exactly `stake` of the `total_stake` ticket values select a given candidate. |
| Leader.DrawIsFresh | src/consensus/mod.rs:706-748 | A draw names a staked validator outside the excluded set, or nobody exactly when none is left. |
| Leader.RanksArePermutation | src/consensus/mod.rs:671-748 | With distinct addresses, ranks 0 to n-1 name each of the n staked validators exactly once and every higher rank repeats rank n-1. |
| Leader.SlotRanksArePermutation | src/consensus/mod.rs:671-748 | The same for the draw the source makes from the slot's digest, at every height and parent. |
| LeaderExact.LeaderIff | src/consensus/mod.rs:671-748 | At every rank below the number of staked validators, the leader is validator i exactly when the little-endian value of the first 16 digest bytes of the spelled-out string (domain length, domain, height, parent, rank), modulo the stake left by the lower ranks' leaders, lies in i's share. |
| LeaderExact.PrimaryLeaderIff | src/consensus/mod.rs:706-748 | The same for rank 0 and the total stake. |
| LeaderExact.EveryoneCanLead | src/consensus/mod.rs:706-748 | Every staked validator leads a given slot under some digest of that slot's string, and changing that digest alone changes no slot with another string. |
| Merkle.HashPairs | src/crypto/hash.rs:125-136 | One pass of the level loop pairs nodes and duplicates an odd last one. |
| Merkle.ComputeRoot | src/crypto/hash.rs:114-139 | The loop computes the recursive root, with its own constant for the empty list. |
| Merkle.GenerateProof | src/crypto/hash.rs:141-175 | The loop collects the siblings of the recursive proof, and nothing for an index outside the list. |
| Merkle.VerifyProof | src/crypto/hash.rs:177-194 | The loop folds the leaf with the proof and compares with the root, refusing an empty root. |
| Merkle.GeneratedProofVerifies | src/crypto/hash.rs:114-194 | For every list and every position in it, odd levels included, the generated proof verifies against the root. |
| CommitmentShapes.SmallMerkleRoots | src/crypto/hash.rs:97-139 | The roots of no, one, two and three leaves, byte by byte. |
| CommitmentShapes.NoProofOutside | src/crypto/hash.rs:141-147 | There is no proof for a position outside the list, and that of an only leaf is empty. |
| MerkleSoundness.AcceptedLeafIsAtIndex | src/crypto/hash.rs:99-194 | If a proof of any length with siblings of any length is accepted for an index inside the list, the leaf is the one at that index, or the two computations collide. |
| MerkleSoundness.AcceptedLeafIsInTree | src/crypto/hash.rs:99-194 | The same for every index, also beyond the list: the leaf is the one the index denotes in the padded tree, or there is a collision. |
| MerkleSoundness.SeedRootAcceptsNothing | src/crypto/hash.rs:95-112 | A proof accepted against the digest of any string with neither the leaf nor the node prefix gives a collision with that string. |
| MerkleSoundness.EmptyRootAcceptsNothing | src/crypto/hash.rs:114-117 | A proof accepted against the root of the empty list gives a collision. |
| MerkleSoundness.RootsDecideTree | src/crypto/hash.rs:114-139 | Two non-empty lists have equal roots if, and without a collision only if, they give the same padded tree. |
| MerkleSoundness.EqualRootsEqualLists | src/crypto/hash.rs:114-139 | Lists of one length with equal roots are equal, or there is a collision. |
| MerkleSoundness.RepeatedLastLeafKeepsRoot | src/crypto/hash.rs:128-132 | Repeating the last leaf of any odd list longer than one leaves the root unchanged. |
| SparseTrie.GroupNodes | src/trie/mod.rs:125-145 | Visiting a level in any order groups each node under its key with the level's bit cleared, on the side that bit says. |
| SparseTrie.HashParents | src/trie/mod.rs:147-153 | Every group becomes one node hashing its two sides, a missing side being the empty constant. |
| SparseTrie.LevelUp | src/trie/mod.rs:125-156 | If a level holds exactly the roots of the occupied subtries at its depth, so does the next one up. |
| SparseTrie.TopLevel | src/trie/mod.rs:158-163 | At depth 0 exactly one node remains, and it is the recursive root. |
| CommitmentShapes.BitsHighFirst | src/trie/mod.rs:34-41 | Key bits are read from the highest bit of each byte. |
| CommitmentShapes.TrieShape | src/trie/mod.rs:19-31 | The root below any prefix of key bits, byte by byte: the empty constant, the tagged key and value, or the tagged roots of the halves for 0 and 1. |
| SparseTrie.SparseMerkleTrie.ComputeRoot | src/trie/mod.rs:110-163 | The level-by-level computation over bit-cleared keys equals the recursive sparse-trie root of the leaves. |
| SparseTrie.SparseMerkleTrie.Insert | src/trie/mod.rs:78-86 | Stores the value, or removes the key for an empty value, and keeps the cached root honest. |
| SparseTrie.SparseMerkleTrie.Remove | src/trie/mod.rs:89-92 | Removes the key and keeps the cached root honest. |
| SparseTrie.SparseMerkleTrie.Root | src/trie/mod.rs:100-107 | Cached or not, the answer is the recursive root of the current leaves, after any history. |
| TrieBinding.TrieRootBinds | src/trie/mod.rs:19-41 | Two tries of 32-byte keys with equal roots have equal contents, or the two computations exhibit a collision. |
| Sorting.EnumerationUnique | src/core/state_root.rs:150-169 | A set of keys has only one increasing listing, so sorting removes the map's iteration order. |
| Sorting.SortKeys | src/core/state_root.rs:150-169 | Keys visited in any order and sorted give that one listing. |
| Sorting.Position | src/core/state_proof.rs:54-56 | The first position of the key, the only one in an increasing list; none exactly when the key is absent. |
| StateRoot.HashStorage | src/core/state_root.rs:124-136 | The storage leaves in key order. |
| StateRoot.HashContract | src/core/state_root.rs:138-148 | A contract's leaf commits to address, code hash (computed when not stored), owner and storage root. |
| StateRoot.HashState | src/core/state_root.rs:150-169 | Account leaves, then contract leaves, each in key order. |
| StateRoot.ComputeV5 | src/core/state_root.rs:67-77 | The v5 root: a constant for the empty state, else the Merkle root of the leaves. |
| CommitmentShapes.SmallStateRoots | src/core/state_root.rs:67-77 | The v5 roots of the empty state, of one account, and of one account and one contract, byte by byte. |
| CommitmentShapes.AccountsByAddress | src/core/state_root.rs:150-169 | Of two accounts the one with the smaller address is the first leaf. |
| CommitmentShapes.CodeIsCommitted | src/core/state_root.rs:138-148 | Without a stored code hash a contract commits to the digest of its code, exactly like one that stores that digest; a stored hash stands for itself. |
| StateRootV5.RootV5EqualIff | src/core/state_root.rs:67-77 | Two states have one v5 root if, and without a collision only if, both are empty or their leaves give one padded tree. |
| StateRootV5.RootV5BindsEncodings | src/core/state_root.rs:67-77 | Two states with one v5 root have the same set of leaf encodings, or hashing them collided. |
| StateRootV5.RootV5Binds | src/core/state_root.rs:67-77 | Two states with one v5 root, of which neither has an account encoded like a contract of the other, have the same accounts and the same contracts with owner, code hash and storage, or hashing them collided. |
| StateProof.GenerateAccountProof | src/core/state_proof.rs:46-80 | A proof exists for exactly the stored accounts, shows the stored state, and verifies against the v5 root. |
| StateProof.GenerateStorageProof | src/core/state_proof.rs:87-181 | A proof exists for exactly the stored slots of stored contracts, shows the stored value, and verifies at both levels: slot under storage root, contract under state root. |
| StateProof.LightClientAgrees | src/light/mod.rs:126-177 | The light client accepts exactly the account proofs and the storage proofs that the full verifiers accept. |
| StateProof.AcceptedEncodingIsStored | src/core/state_proof.rs:71-80 | A leaf encoding accepted against the v5 root of any state, the empty one included, at any index and with any proof, is the encoding of a stored account or contract, or there is a collision. |
| StateProof.AccountProofSound | src/core/state_proof.rs:71-80 | An accepted account proof, whatever its index, shows the account's real state, or its encoding is also that of a stored contract, or there is a collision. |
| StateProof.ContractProvesAccount | src/core/state_proof.rs:71-80 | The middle case yields proofs: a stored contract encoded like an account gives an accepted proof of that account. |
| StateProof.StorageProofSound | src/core/state_proof.rs:147-181 | An accepted storage proof, whatever its two indices, shows the slot's real value, or its contract encoding is also that of a stored account, or there is a collision. |
| StateProof.AccountProvesSlot | src/core/state_proof.rs:147-181 | The middle case yields proofs: a stored account encoded like a contract gives accepted proofs of every slot of that contract. |
| Bincode.AccountBodyBack | src/core/chain/mod.rs:292-307 | Reading what was written for an account gives the account back, for all values of its 64-bit fields, any list of unstakes and any key. |
| Bincode.ReadAccountBodyBack | src/core/chain/mod.rs:292-307 | Conversely, bytes that can be read as an account are exactly what is written for it. |
| Bincode.ContractBodyBack | src/core/state_root.rs:138-148 | Reading what was written for a contract gives its code hash, owner and storage root back. |
| Bincode.ReadContractBodyBack | src/core/state_root.rs:138-148 | Conversely, bytes that can be read as a contract are exactly what is written for it. |
| Bincode.EncodingInjective | src/core/state_root.rs:119-148 | The encodings of accounts, slots and contracts each determine what they encode. |
| LeafConfusion.EncodedAlikeIff | src/core/state_root.rs:119-148 | An account and a contract have one encoding if and only if they have one address and the contract's fields read as the account, equivalently the account's as the contract. |
| LeafConfusion.ManyUnstakesNeverRead | src/core/state_root.rs:138-148 | A test on a contract's fields: if the code hash bytes in the place of the unstake count announce more than the encoding can hold, it never reads as an account. |
| LeafConfusion.UsualSizesNeverRead | src/core/state_root.rs:138-148 | With a 32-byte code hash, 20-byte owner and 32-byte root that is any count above 3. |
| LeafConfusion.AccountConfusedIff | src/core/state_proof.rs:71-80 | An account proof can be about a stored contract exactly when the account reads as the contract stored at its address. |
| LeafConfusion.ContractConfusedIff | src/core/state_proof.rs:147-181 | A storage proof can be about a stored account exactly when its contract reads as the account stored at that address. |
| LeafConfusion.AccountProofReal | src/core/state_proof.rs:71-80 | An accepted account proof whose state does not read as a contract, a test on the proof alone, shows the real state, or there is a collision. |
| LeafConfusion.StorageProofReal | src/core/state_proof.rs:147-181 | An accepted storage proof whose contract does not read as an account, a test on the proof alone, shows the real value, or there is a collision. |
| LeafConfusion.PhantomAccount | src/core/state_proof.rs:71-80 | A state with nothing but one contract, of any address and storage, with a zero code hash and a certain owner, accepts a proof of an account that does not exist. |
| LeafConfusion.PhantomSlot | src/core/state_proof.rs:147-181 | A state with nothing but one account accepts proofs of every slot of a contract that does not exist. |
| LeafConfusion.PhantomRoots | src/core/state_root.rs:67-77 | Those two different states have one v5 root. |
| LeafConfusion.SourceRootV5Binds | src/core/state_root.rs:67-77 | Under the source's encoding, two states with one v5 root whose contracts never read as accounts are the same state, or hashing them collided. |
| LeafConfusion.SourceRootV6Binds | src/core/state_root.rs:88-117 | Under the source's encoding, two states with one v6 root are the same state, or hashing them collided, without any such condition. |
| StateRootV6.ComputeV6 | src/core/state_root.rs:88-117 | Inserting accounts and contracts into the trie gives the v6 root, the recursive root of the state's leaves. |
| CommitmentShapes.V6TrieContents | src/core/state_root.rs:88-117 | The v6 trie holds each account's leaf under the digest of a zero byte and its address, each contract's under that of a one byte and its address, and nothing else. |
| StateRootV6.ComputeAtProtocol | src/core/state_root.rs:55-65 | The trie root from protocol version 6 on, the list root before. |
| StateRootV6.StorageRootBinds | src/core/state_root.rs:124-136 | Without collisions a storage root determines the storage, sizes included, although odd levels are padded. |
| StateRootV6.RootV6Binds | src/core/state_root.rs:88-148 | Two states with one v6 root have the same accounts and the same contracts with owner, code hash and storage, or hashing them collided. |
| BlockStore.InMemoryBlockBackend.PutBlock | src/storage/backend.rs:88-95 | Stores a block under its height, replacing. |
| BlockStore.InMemoryBlockBackend.PruneBlocksBelow | src/storage/backend.rs:105-118 | Drops exactly the heights below the limit and counts them. |
| BlockStore.InMemoryBlockBackend.GetHeight | src/storage/backend.rs:120-126 | The highest stored height, none exactly for an empty store. |
| BlockStore.BlockStoreCursor.constructor | src/core/block_store.rs:126-141 | A cursor with an empty cache of capacity at least 1 that stands for what the backend holds above genesis. |
| BlockStore.BlockStoreCursor.Open | src/core/block_store.rs:99-141 | Refused exactly when genesis is missing; otherwise it reads as the backend does at every height, gaps included. |
| BlockStore.BlockStoreCursor.BlockAt | src/core/block_store.rs:171-201 | For every cache size and history, the answer is that of the plain block sequence: genesis always, nothing below the floor or above the head. |
| BlockStore.BlockStoreCursor.AppendBlock | src/core/block_store.rs:217-236 | Extends the plain sequence and the backend by exactly the next block, and refuses any other height without change. |
| BlockStore.BlockStoreCursor.PruneBelow | src/core/block_store.rs:240-264 | Raises the floor of the plain sequence, empties the cache below it, leaves in the backend exactly the heights from the new floor on, and counts what was removed; a limit not above the floor changes nothing. |
| BlockStore.PruneAndReopen | src/core/block_store.rs:238-264 | Pruning a store and opening it anew: the old cursor still serves genesis, and the new one is refused if and only if the prune was above the floor. |
| BlockStore.SmallestLoss | src/core/block_store.rs:238-264 | The smallest case, genesis and one block pruned to height 1: the store can be opened before and not after. |
| BlockStore.BlockStoreCursor.InvalidateFrom | src/core/block_store.rs:268-283 | Truncates the plain sequence and leaves the backend as it is. |
| BlockStore.TruncateAndReopen | src/core/block_store.rs:268-283 | Truncating a store and opening it anew: the old cursor reads nothing from the cut on, and the new one reads again everything the old one could before. |
| BlockStore.PrunedStaysUnreadable | src/core/block_store.rs:171-283 | Over any run, a pruned height other than genesis never reads as a block again. |
| BlockStore.AppendedStaysReadable | src/core/block_store.rs:171-283 | Over any run, a block stays readable and unchanged until a prune or a truncation reaches it; evictions do not matter. |
| BlockStore.ReorgReplacesSuffix | src/core/chain/mod.rs:1078-1092 | Truncating at any height, 0 included, and appending anew replaces exactly the suffix; from height 0 it replaces genesis too, and the floor stays. |
| BlockStore.ReadAfterAppend | src/core/block_store.rs:217-236 | After an append every height reads as before but that of the block, and only if it is the next one. |
| BlockStore.ReadAfterPrune | src/core/block_store.rs:240-264 | A prune hides exactly the heights strictly between genesis and its limit. |
| BlockStore.ReadAfterTruncate | src/core/block_store.rs:268-283 | A truncation hides exactly the heights above genesis from its start on. |
| BlockCache.CacheKeepsLatest | src/core/block_store.rs:119-137 | After any uses the cache holds, for each height it has, the line put last, later uses first; a height used before is missing only when the cache is full of heights used later. |
| StoreInterleaving.ReadersSeeAppendedBlocks | src/core/block_store.rs:171-264 | In every interleaving of any number of readers, appends and prunes, split where the lock is dropped, a block returned for a height is the one appended at that height, and nothing cached is below the floor. |
| StoreInterleaving.ReadAloneIsExact | src/core/block_store.rs:171-201 | A read that no other step comes between gives genesis, nothing, or the appended block exactly as its height lies against floor and head. |
| StoreFloor.FloorIsLastTarget | src/core/block_store.rs:240-264 | In every run the floor is the argument of the last completed prune. |
| StoreFloor.FloorFallsIff | src/core/block_store.rs:240-264 | In every run a step lowers the floor if and only if it completes a prune called before the last completed one ended, whose argument is larger. |
| StoreFloor.ReadsRespectLastPrune | src/core/block_store.rs:171-264 | In every run a read that ends with a block above genesis gives one at or above the argument of the last completed prune. |
| StoreFloor.ReadsStayAboveUntilOvertaken | src/core/block_store.rs:171-264 | After a completed prune to k, and until some prune ends overtaken by a higher one, no read ends with a block strictly between genesis and k. |
| StoreFloor.SerialPrunesKeepFloor | src/core/block_store.rs:240-264 | In runs in which prunes do not overlap the floor never falls. |
| StoreFloor.SerialReadsStayAbove | src/core/block_store.rs:171-264 | In such runs no read that ends after a completed prune to k gives a block strictly between genesis and k. |
| StoreFloor.OverlappingPrunesServePrunedBlock | src/core/block_store.rs:171-264 | A run from genesis in which prunes to 1 and 2 overlap: after the prune to 2 has completed the floor falls to 1, and two reads are given block 1, the second from the cache. |
| SnapshotSync.Drain | src/network/mod.rs:1828-1844 | Buffered chunks of the manifest's height move to the session, in any order, and only higher heights stay buffered. |
| SnapshotSync.Assembler.Complete | src/network/mod.rs:1846-1928 | When as many chunks are held as announced, they are taken out by index; a gap stops that, otherwise they are applied once in index order and the session closes. |
| SnapshotSync.Assembler.HandleManifest | src/network/mod.rs:1758-1928 | An unacceptable manifest changes nothing; an acceptable one opens or keeps its session, drains the buffer and tries to apply. |
| SnapshotSync.Assembler.CountBytes | src/network/mod.rs:1957-1961 | The bytes buffered, independently of the order of visiting. |
| SnapshotSync.Assembler.HandleChunk | src/network/mod.rs:1933-2031 | A chunk of the session's height is filed and application tried; any other is buffered within both caps or dropped. |
| SnapshotOrder.RoomForNewChunk | src/network/mod.rs:1952-1971 | Beside chunks of other heights that leave room for the plan, a chunk of the plan not yet waiting always finds room. |
| SnapshotOrder.AppliedExactlyOnceWhenDelivered | src/network/mod.rs:1758-2031 | From any state left over by other sessions, after any sequence of pieces of one good snapshot, in any order and with repetitions, `apply_snapshot` has been called exactly once more, with all chunks in index order, if every piece has arrived, and not otherwise; chunks waiting for a higher snapshot still wait. |
| SnapshotOrder.FailureStartsOver | src/network/mod.rs:1918-1928 | When applying a complete session fails, it is logged, the session closes without its chunks and the chain stays; the same manifest then starts over with what waits for it and nothing else. |
| SnapshotProvenance.AppliedChunksBelong | src/network/mod.rs:1725-2031 | For any events: every application was for a manifest accepted before, with one chunk for each index, each of which arrived for the manifest's height under that index, not while a session of that height with another chunk root was open, and with no session since but lower ones and those of the same height and root. |
| SnapshotProvenance.BufferStaysWithinLimits | src/network/mod.rs:1952-1971 | Whatever arrives, at most 2048 chunks and 128 MiB ever wait. |
| SnapshotStray.LosesChunksIff | src/network/mod.rs:1978-1988 | Trying to apply discards collected chunks without applying if and only if the number of chunks matches, one has an index at or above the count, and index 0 is held. |
| SnapshotStray.StrayChunkDiscardsFirst | src/network/mod.rs:1978-1988 | A session of two chunks that holds the first one discards it on receiving a chunk with index 2. |
| SnapshotStray.StalledForGood | src/network/mod.rs:1815-2031 | A session that holds a chunk with an index at or above the count never applies anything, whatever chunks follow and however often its manifest is repeated. |
| SnapshotStray.StrayChunkPreventsSnapshot | src/network/mod.rs:1815-2031 | After the manifest of a good snapshot and one such chunk, no sequence of the snapshot's pieces gets it applied. |
| Governance.GovernanceState.SubmitProposal | src/governance/mod.rs:90-144 | Refuses an invalid kind without change, otherwise opens an Active proposal under its digest id with the snapshot and deadline. |
| Governance.GovernanceState.CastVote | src/governance/mod.rs:146-184 | The refusals in their order, without change; otherwise the voter's snapshot stake is added on the chosen side. |
| Governance.GovernanceState.SettleOne | src/governance/mod.rs:195-233 | One proposal is decided after its deadline, executed when due, or left alone; an epoch length of 0 is excluded only where the source would divide by it. |
| Governance.GovernanceState.ProcessBlock | src/governance/mod.rs:187-236 | Whatever the iteration order, every proposal is settled once, and exactly the due ones are recorded and returned, each once; an epoch length of 0 is excluded only where some proposal passes. |
| GovernanceRuns.IdsDetermineHeights | src/governance/mod.rs:120-124 | With addresses of one length, two submissions of a run that share an id were made at one height, or their seeds collide. |
| GovernanceRuns.TalliesAreBallots | src/governance/mod.rs:146-184 | At every point of every run, votes for and against are exactly the snapshot stake of those whose ballots of each side were counted since the proposal was opened; nobody is on both sides. |
| GovernanceRuns.TallyIsVoterStake | src/governance/mod.rs:146-184 | For plus against equals the snapshot stake of the recorded voters and is at most that of the whole snapshot. |
| GovernanceRuns.ReopenedWhileActive | src/governance/mod.rs:120-143 | In every run with heights that never fall and ids not shared by two heights, a submission can only overwrite a proposal that is still Active. |
| GovernanceRuns.BallotForgottenIff | src/governance/mod.rs:128-184 | Over any run, an operation removes a recorded voter of a proposal if and only if it submits the same id again. |
| GovernanceRuns.ResubmissionForgetsVotes | src/governance/mod.rs:128-184 | The run submit, vote, submit with one height, proposer and kind takes the votes for the proposal from 10 back to 0. |
| GovernanceRuns.StatusMovesOneStep | src/governance/mod.rs:90-236 | Each operation leaves a proposal's status or moves it Active to Passed or Rejected, or Passed to Executed; a decided proposal changes in nothing else. |
| GovernanceRuns.DecisionsAreFinal | src/governance/mod.rs:187-236 | Over any stretch of a run a Rejected or Executed proposal stays as it is and a Passed one can only become Executed. |
| GovernanceRuns.BallotsDecide | src/governance/mod.rs:197-221 | The first block after the deadline passes a proposal exactly when the total stake is positive, the ballots hold at least half of it and those For at least 67 percent of the ballots' stake, and rejects it otherwise; until then it stays Active. |
| GovernanceRuns.OpposedNeverPasses | src/governance/mod.rs:199-218 | With at least as much stake against as for, no proposal passes. |
| GovernanceRuns.UnanimousHalfPasses | src/governance/mod.rs:199-218 | With half of the total stake cast For and none Against, a proposal passes. |
| GovernanceRuns.MoreForNeverHurts | src/governance/mod.rs:199-218 | Moving stake from Against to For never turns a passed proposal into a rejected one. |
| GovernanceExact.VoteAnswers | src/governance/mod.rs:146-184 | What every vote of every run is answered, from the history alone: never opened, decided by a block after the deadline, past the deadline, a ballot already counted, no stake at the opening, or counted. |
| GovernanceExact.VoteIsCountedIff | src/governance/mod.rs:146-184 | A vote without an error joins the ballots of the side it chose, and one with an error changes nothing. |
| GovernanceExact.SubmissionOpensIff | src/governance/mod.rs:90-144 | A submission opens its proposal, without ballots, exactly when it is an upgrade to a version above 0 or a change of one of the six parameters; otherwise nothing changes. |
| GovernanceExact.ProposalsFromOpenings | src/governance/mod.rs:120-143 | Every stored proposal is what its last submission made it, with a deadline two epochs later, and Active until the first block after that. |
| GovernanceExact.ExecutesIff | src/governance/mod.rs:205-230 | A passed proposal is executed by a later block if and only if that block is at least 32 after the deadline, or at the last height there is, and in a later epoch than the deadline. |
| GovernanceRuns.ExecutedOnceAfterWinning | src/governance/mod.rs:187-236 | No id is ever executed twice, and each executed id carried half of the total stake and 67 percent of the ballots at an earlier block after its deadline and was executed no earlier than the deadline plus 32, saturating. |
| Token.TokenRegistry.DeployToken | src/token/mod.rs:66-112 | The refusals in their order, without change; otherwise the token exists and its deployer holds the supply. |
| Token.TokenRegistry.TransferTokens | src/token/mod.rs:114-144 | The refusals in their order, without change; otherwise the amount moves. |
| Token.TokenRegistry.ApproveSpender | src/token/mod.rs:146-161 | Sets the allowance of a known token. |
| Token.TokenRegistry.TransferTokensFrom | src/token/mod.rs:163-203 | The refusals in their order, without change; otherwise the amount moves, to the owner itself too, and the allowance falls by it. |
| Token.SupplyIsConserved | src/token/mod.rs:66-203 | After any run of operations every token's balances sum to its supply, and only known tokens have balances. |
| Token.CreditNeverOverflows | src/token/mod.rs:130-141 | In every reachable registry the credit of an accepted payment fits 64 bits. |
| TokenBook.AnswersFromHistory | src/token/mod.rs:66-203 | What every operation is answered after every run, each refusal and the acceptance, from the history alone: earlier accepted deployments, what the owner received and paid, what was approved and drawn. |
| TokenBook.AcceptedIff | src/token/mod.rs:66-203 | An operation is accepted if and only if the book says so, and a refused one changes nothing. |
| TokenBook.RegistryIsBook | src/token/mod.rs:66-203 | After every run the tokens are the deployed ones, every balance is what came in less what was paid, and every allowance is the amount approved less what was drawn since. |
| TokenBook.RecordIsDeployment | src/token/mod.rs:94-112 | Every token's record is what its one accepted deployment said, for good. |
| TokenBook.OnlyOwnerOrSpenderDebits | src/token/mod.rs:114-203 | A balance falls only by its owner's transfer or by a spender's draw that stays within what the owner approved. |

## Left out

- Networking (libp2p, gossip, RPC, HTTP), CLI, faucet, peer scoring, the rate limiter, website and SDK: I/O or easy members only.
- Block and transaction validation in `src/core/chain`, the WASM and EVM machines and the redb storage; block acceptance beyond the tree's own tests is not modelled.
- SHA-3 and ML-DSA internals: parameters. Of bincode only the encoding of leaves is written out.
- `SparseMerkleTrie::prove` and `SmtProof::verify`: the final check accepts any non-empty hash, so there is no membership claim.
- The finalization a snapshot brings along (src/core/chain/snapshot.rs:321) and history pruning after a finalization (`maybe_prune_finalized`); nodes here start at genesis and prune only the tree.
- Equivocation evidence, slashing, epoch settlement, `active_validators` and `select_validator`; snapshots are given.
- Light-client header synchronisation: a chain of per-header checks with no state beyond a list.
- Checkpoints, receipts, fee helpers, typed wrappers.
- 64-bit overflow of cumulative weights, heights, deadlines and stake sums: these are unbounded here, except as said above.
- Finality.AccountableSafety: votes for one hash counted under several snapshots are not covered. `Finality.ConflictNeedsDoubleVotes` asks that votes carry their block's height; `Node.ConflictingNodesExposeAThird` derives this from the node's own test.
- FinalityExact.AnswersExactly: one well-formed snapshot for each height, and one height for the countable votes of each block; `FinalityExact.HeightsArePooled` shows that without the latter it fails, and the node's own test ensures it (`NodeExact.NodeFinalizesExactly`).
- Node.ConflictingNodesExposeAThird: the two nodes must have the same snapshot for the epoch in question, and a hash must stand for one block; how snapshots are computed and rebuilt on a reorg (src/core/chain/replay.rs:127-172) is not modelled.
- Leader.RanksArePermutation: assumes distinct addresses and no overflow of the stake sum.
- StateRootV5.RootV5Binds: the condition on encodings is sufficient, and needed by `LeafConfusion.PhantomRoots`; the exact condition for equal roots, `StateRootV5.RootV5EqualIff`, is about the leaves.
- StateProof.AccountProofSound: asks, like the other soundness and binding results, that integers and lengths fit 64 bits, as the source's types ensure.
- NodeLimits.RestartAgreesIff: for a store that still holds the whole chain; a restart over pruned history stops at the first missing block.
- BlockStore.BlockStoreCursor.AppendBlock: the self-persisting mode only; mutex poisoning and storage failures are not modelled.
- StoreInterleaving.ReadersSeeAppendedBlocks: without `invalidate_from` between the steps of a read, and with `prune_below` aimed no higher than the length.
- SnapshotOrder.AppliedExactlyOnceWhenDelivered: for one snapshot at a time, whose chunks find room beside what waits and whose application succeeds; for mixtures of snapshots `SnapshotProvenance.AppliedChunksBelong` says what is applied.
- GovernanceRuns.ExecutedOnceAfterWinning: assumes non-decreasing heights and that an id is not shared by two heights, which `GovernanceRuns.IdsDetermineHeights` reduces to a hash collision.
