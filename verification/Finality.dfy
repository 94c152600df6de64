/**
BFT finality voting, the `FinalityTracker` of `src/consensus/mod.rs`: one vote at a time as a
function on a whole tracker, the exact threshold, and accountable safety across two nodes.
Signature checking is the parameter `verify`; every vote comes with the snapshot it is counted
under.
*/
module Finality {
  import opened Common

  datatype Vote = Vote(blockHash: Hash, blockHeight: nat, epoch: nat, voter: Hash, signature: Bytes)

  datatype Validator = Validator(address: Hash, publicKey: Hash, stake: nat)

  datatype Snapshot = Snapshot(epoch: nat, startHeight: nat, validators: seq<Validator>, totalStake: nat)

  datatype Finalized = Finalized(hash: Hash, height: nat)

  datatype Tracker = Tracker(
    votes: map<Hash, seq<Vote>>, seen: set<(Hash, nat)>, finalizedHeight: nat, finalizedHash: Hash)

  /** `with_finalized`; `new` is the case of height 0 and an empty hash. */
  function WithFinalized(height: nat, hash: Hash): Tracker
  {
    Tracker(map[], {}, height, hash)
  }

  /** The stake table built from the snapshot; a repeated key keeps its last stake. */
  function Stakes(vs: seq<Validator>): map<Hash, nat>
  {
    if vs == [] then map[]
    else Stakes(vs[..|vs| - 1])[vs[|vs| - 1].publicKey := vs[|vs| - 1].stake]
  }

  /** The stake of a list of votes, voters outside the table counting nothing. */
  function VotedStake(stakes: map<Hash, nat>, pool: seq<Vote>): nat
  {
    if pool == [] then 0
    else
      var v := pool[|pool| - 1].voter;
      VotedStake(stakes, pool[..|pool| - 1]) + (if v in stakes then stakes[v] else 0)
  }

  function Pool(t: Tracker, hash: Hash): seq<Vote>
  {
    if hash in t.votes then t.votes[hash] else []
  }

  /** The tests `add_vote` makes before it records anything. */
  predicate Admissible(verify: Vote -> bool, t: Tracker, v: Vote, snap: Snapshot)
  {
    && verify(v)
    && v.epoch == snap.epoch
    && v.blockHeight > t.finalizedHeight
    && v.voter in Stakes(snap.validators)
    && (v.voter, v.blockHeight) !in t.seen
  }

  /** The 2/3 test with the saturating products of the source. */
  predicate ReachesThreshold(voted: nat, total: nat)
  {
    SaturatingMul(voted, 3) >= SaturatingMul(total, 2)
  }

  /** The pools kept after finalizing `height`: those whose first vote is for a higher block. */
  function PoolsAbove(votes: map<Hash, seq<Vote>>, height: nat): map<Hash, seq<Vote>>
  {
    map h | h in votes && votes[h] != [] && votes[h][0].blockHeight > height :: votes[h]
  }

  function SeenAbove(seen: set<(Hash, nat)>, height: nat): set<(Hash, nat)>
  {
    set s | s in seen && s.1 > height
  }

  predicate HasVoter(pool: seq<Vote>, voter: Hash)
  {
    exists w :: w in pool && w.voter == voter
  }

  /** `add_vote`. */
  function AddVote(verify: Vote -> bool, t: Tracker, v: Vote, snap: Snapshot): (Tracker, Option<Finalized>)
  {
    if !Admissible(verify, t, v, snap) then (t, None)
    else
      var seen := t.seen + {(v.voter, v.blockHeight)};
      var pool := Pool(t, v.blockHash);
      if HasVoter(pool, v.voter) then (t.(seen := seen), None)
      else
        var votes := t.votes[v.blockHash := pool + [v]];
        var counted := t.(votes := votes, seen := seen);
        if snap.totalStake == 0 || !ReachesThreshold(VotedStake(Stakes(snap.validators), pool + [v]), snap.totalStake)
        then (counted, None)
        else
          (Tracker(PoolsAbove(votes, v.blockHeight), SeenAbove(seen, v.blockHeight), v.blockHeight, v.blockHash),
           Some(Finalized(v.blockHash, v.blockHeight)))
  }

  /** The tracker of the source: fields updated in place. */
  class FinalityTracker {
    var votes: map<Hash, seq<Vote>>
    var seenVotes: set<(Hash, nat)>
    var finalizedHeight: nat
    var finalizedHash: Hash

    function View(): Tracker
      reads this
    {
      Tracker(votes, seenVotes, finalizedHeight, finalizedHash)
    }

    constructor (height: nat, hash: Hash)
      ensures View() == WithFinalized(height, hash)
    {
      votes, seenVotes, finalizedHeight, finalizedHash := map[], {}, height, hash;
    }

    method Add(verify: Vote -> bool, vote: Vote, snap: Snapshot) returns (r: Option<Finalized>)
      modifies this
      ensures (View(), r) == AddVote(verify, old(View()), vote, snap)
    {
      if !verify(vote) || vote.epoch != snap.epoch || vote.blockHeight <= finalizedHeight {
        return None;
      }
      var stakes := Stakes(snap.validators);
      if vote.voter !in stakes {
        return None;
      }
      var key := (vote.voter, vote.blockHeight);
      if key in seenVotes {
        return None;
      }
      assert Admissible(verify, View(), vote, snap);
      seenVotes := seenVotes + {key};

      var pool := if vote.blockHash in votes then votes[vote.blockHash] else [];
      if HasVoter(pool, vote.voter) {
        return None;
      }
      pool := pool + [vote];
      votes := votes[vote.blockHash := pool];
      ghost var counted := View();
      assert counted == old(View()).(votes := votes, seen := seenVotes);

      if snap.totalStake == 0 {
        return None;
      }
      var voted := CountStake(stakes, pool);
      if SaturatingMul(voted, 3) >= SaturatingMul(snap.totalStake, 2) {
        finalizedHeight := vote.blockHeight;
        finalizedHash := vote.blockHash;
        votes := PoolsAbove(votes, vote.blockHeight);
        seenVotes := SeenAbove(seenVotes, vote.blockHeight);
        assert View() == Tracker(PoolsAbove(counted.votes, vote.blockHeight), SeenAbove(counted.seen, vote.blockHeight),
                                 vote.blockHeight, vote.blockHash);
        return Some(Finalized(vote.blockHash, vote.blockHeight));
      }
      r := None;
    }

    static method CountStake(stakes: map<Hash, nat>, pool: seq<Vote>) returns (sum: nat)
      ensures sum == VotedStake(stakes, pool)
    {
      sum := 0;
      for i := 0 to |pool|
        invariant sum == VotedStake(stakes, pool[..i])
      {
        assert pool[..i + 1][..i] == pool[..i];
        if pool[i].voter in stakes {
          sum := sum + stakes[pool[i].voter];
        }
      }
      assert pool[..|pool|] == pool;
    }
  }

  // ---------------------------------------------------------------------------
  // Stake of a set of keys

  /** The stake of the validators whose key is in `keys`. */
  ghost function Weight(vs: seq<Validator>, keys: set<Hash>): nat
  {
    if vs == [] then 0
    else
      var v := vs[|vs| - 1];
      Weight(vs[..|vs| - 1], keys) + (if v.publicKey in keys then v.stake else 0)
  }

  ghost predicate DistinctKeys(vs: seq<Validator>)
  {
    forall i, j :: 0 <= i < j < |vs| ==> vs[i].publicKey != vs[j].publicKey
  }

  /** What a well-made snapshot promises: distinct keys and a total that is the sum of the stakes and at most half of u64. */
  ghost predicate WellFormed(snap: Snapshot)
  {
    && DistinctKeys(snap.validators)
    && snap.totalStake == Weight(snap.validators, Stakes(snap.validators).Keys)
    && snap.totalStake <= U64_MAX / 2
  }

  lemma {:induction false} StakesKeys(vs: seq<Validator>, k: Hash)
    ensures k in Stakes(vs) <==> exists i :: 0 <= i < |vs| && vs[i].publicKey == k
  {
    if vs != [] {
      var n := |vs| - 1;
      StakesKeys(vs[..n], k);
      if vs[n].publicKey != k && k in Stakes(vs) {
        var i :| 0 <= i < n && vs[..n][i].publicKey == k;
        assert vs[i].publicKey == k;
      }
      if i :| 0 <= i < |vs| && vs[i].publicKey == k {
        if i < n { assert vs[..n][i].publicKey == k; }
      }
    }
  }

  lemma {:induction false} WeightInsert(vs: seq<Validator>, keys: set<Hash>, k: Hash)
    requires DistinctKeys(vs) && k !in keys
    ensures Weight(vs, keys + {k}) == Weight(vs, keys) + (if k in Stakes(vs) then Stakes(vs)[k] else 0)
  {
    if vs != [] {
      var n := |vs| - 1;
      WeightInsert(vs[..n], keys, k);
      StakesKeys(vs[..n], k);
      assert vs[n].publicKey == k ==> k !in Stakes(vs[..n]);
    }
  }

  lemma {:induction false} WeightMonotone(vs: seq<Validator>, a: set<Hash>, b: set<Hash>)
    requires a <= b
    ensures Weight(vs, a) <= Weight(vs, b)
  {
    if vs != [] { WeightMonotone(vs[..|vs| - 1], a, b); }
  }

  /** Inclusion and exclusion for stake. */
  lemma {:induction false} WeightIntersection(vs: seq<Validator>, a: set<Hash>, b: set<Hash>)
    ensures Weight(vs, a) + Weight(vs, b) == Weight(vs, a + b) + Weight(vs, a * b)
  {
    if vs != [] { WeightIntersection(vs[..|vs| - 1], a, b); }
  }

  ghost function Voters(pool: seq<Vote>): set<Hash>
  {
    set i | 0 <= i < |pool| :: pool[i].voter
  }

  ghost predicate DistinctVoters(pool: seq<Vote>)
  {
    forall i, j :: 0 <= i < j < |pool| ==> pool[i].voter != pool[j].voter
  }

  /** Counting a pool of distinct voters is weighing the set of voters. */
  lemma {:induction false} VotedStakeIsWeight(vs: seq<Validator>, pool: seq<Vote>)
    requires DistinctKeys(vs) && DistinctVoters(pool)
    ensures VotedStake(Stakes(vs), pool) == Weight(vs, Voters(pool))
  {
    if pool == [] {
      assert Voters(pool) == {};
      WeightEmpty(vs);
    } else {
      var n := |pool| - 1;
      VotedStakeIsWeight(vs, pool[..n]);
      assert Voters(pool) == Voters(pool[..n]) + {pool[n].voter};
      WeightInsert(vs, Voters(pool[..n]), pool[n].voter);
    }
  }

  lemma {:induction false} WeightEmpty(vs: seq<Validator>)
    ensures Weight(vs, {}) == 0
  {
    if vs != [] { WeightEmpty(vs[..|vs| - 1]); }
  }

  /** Up to half of u64 the saturating test is the exact two-thirds test. */
  lemma SaturationIsExact(voted: nat, total: nat)
    requires total <= U64_MAX / 2
    ensures ReachesThreshold(voted, total) <==> 3 * voted >= 2 * total
  {
  }

  /** The saturating test is the two-thirds test for every tally exactly when the total is at most half of u64; above that a third of u64 is enough to finalize. */
  lemma SaturationIsExactIff(total: nat)
    ensures (forall voted: nat :: ReachesThreshold(voted, total) <==> 3 * voted >= 2 * total) <==> total <= U64_MAX / 2
  {
    if total <= U64_MAX / 2 {
      forall voted: nat
        ensures ReachesThreshold(voted, total) <==> 3 * voted >= 2 * total
      { SaturationIsExact(voted, total); }
    } else {
      assert ReachesThreshold(U64_MAX / 3, total);
    }
  }

  // ---------------------------------------------------------------------------
  // Runs

  /** A vote as it reaches a tracker, with the snapshot it is counted under at that moment. */
  datatype Fed = Fed(vote: Vote, snap: Snapshot)

  /** The tracker after a sequence of votes. */
  function Run(verify: Vote -> bool, start: Tracker, feed: seq<Fed>): Tracker
  {
    if feed == [] then start
    else
      var f := feed[|feed| - 1];
      AddVote(verify, Run(verify, start, feed[..|feed| - 1]), f.vote, f.snap).0
  }

  /** What the `i`-th vote of a run returns. */
  function Reply(verify: Vote -> bool, start: Tracker, feed: seq<Fed>, i: nat): Option<Finalized>
    requires i < |feed|
  {
    AddVote(verify, Run(verify, start, feed[..i]), feed[i].vote, feed[i].snap).1
  }

  /** A vote that is signed, for the snapshot's epoch, by one of its validators. */
  ghost predicate Countable(verify: Vote -> bool, v: Vote, snap: Snapshot)
  {
    verify(v) && v.epoch == snap.epoch && v.voter in Stakes(snap.validators)
  }

  /** The validators with a countable vote for `hash` in a sequence of votes. */
  ghost function Signers(verify: Vote -> bool, feed: seq<Fed>, hash: Hash, snap: Snapshot): set<Hash>
  {
    set i | 0 <= i < |feed| && feed[i].vote.blockHash == hash && Countable(verify, feed[i].vote, snap) :: feed[i].vote.voter
  }

  /** Every vote for `hash` is counted under `snap`; votes for other blocks may be counted under any. */
  ghost predicate OneSnapshot(feed: seq<Fed>, hash: Hash, snap: Snapshot)
  {
    forall i :: 0 <= i < |feed| && feed[i].vote.blockHash == hash ==> feed[i].snap == snap
  }

  /** The recorded votes for one block: countable, by distinct voters, all among the votes fed so far. */
  ghost predicate PoolOk(verify: Vote -> bool, pool: seq<Vote>, hash: Hash, snap: Snapshot, feed: seq<Fed>)
  {
    && DistinctVoters(pool)
    && (forall i :: 0 <= i < |pool| ==> pool[i].voter in Signers(verify, feed, hash, snap))
  }

  lemma SignersGrow(verify: Vote -> bool, feed: seq<Fed>, f: Fed, hash: Hash, snap: Snapshot)
    ensures Signers(verify, feed, hash, snap) <= Signers(verify, feed + [f], hash, snap)
    ensures f.vote.blockHash == hash && Countable(verify, f.vote, snap) ==> f.vote.voter in Signers(verify, feed + [f], hash, snap)
  {
    var all := feed + [f];
    assert all[|feed|] == f;
    forall k | k in Signers(verify, feed, hash, snap)
      ensures k in Signers(verify, all, hash, snap)
    {
      var i :| 0 <= i < |feed| && feed[i].vote.blockHash == hash && Countable(verify, feed[i].vote, snap) && feed[i].vote.voter == k;
      assert all[i] == feed[i];
    }
  }

  lemma AddVotePoolOk(verify: Vote -> bool, t: Tracker, feed: seq<Fed>, f: Fed, hash: Hash, snap: Snapshot)
    requires PoolOk(verify, Pool(t, hash), hash, snap, feed)
    requires f.vote.blockHash == hash ==> f.snap == snap
    ensures PoolOk(verify, Pool(AddVote(verify, t, f.vote, f.snap).0, hash), hash, snap, feed + [f])
  {
    var pool, v := Pool(t, hash), f.vote;
    SignersGrow(verify, feed, f, hash, snap);
    assert PoolOk(verify, pool, hash, snap, feed + [f]);
    if v.blockHash == hash && Admissible(verify, t, v, f.snap) && !(exists w :: w in pool && w.voter == v.voter) {
      assert forall i :: 0 <= i < |pool| ==> pool[i] in pool;
      assert PoolOk(verify, pool + [v], hash, snap, feed + [f]);
    }
  }

  lemma {:induction false} RunPoolOk(verify: Vote -> bool, start: Tracker, feed: seq<Fed>, hash: Hash, snap: Snapshot)
    requires start.votes == map[] && OneSnapshot(feed, hash, snap)
    ensures PoolOk(verify, Pool(Run(verify, start, feed), hash), hash, snap, feed)
  {
    if feed != [] {
      var init, f := feed[..|feed| - 1], feed[|feed| - 1];
      assert feed == init + [f];
      RunPoolOk(verify, start, init, hash, snap);
      AddVotePoolOk(verify, Run(verify, start, init), init, f, hash, snap);
    }
  }

  lemma {:induction false} SignersPrefix(verify: Vote -> bool, feed: seq<Fed>, i: nat, hash: Hash, snap: Snapshot)
    requires i <= |feed|
    ensures Signers(verify, feed[..i], hash, snap) <= Signers(verify, feed, hash, snap)
    decreases |feed|
  {
    if i == |feed| {
      assert feed[..i] == feed;
    } else {
      var n := |feed| - 1;
      SignersPrefix(verify, feed[..n], i, hash, snap);
      assert feed[..n][..i] == feed[..i] && feed == feed[..n] + [feed[n]];
      SignersGrow(verify, feed[..n], feed[n], hash, snap);
    }
  }

  /** What is true of a vote that finalizes. */
  lemma FinalizingVote(verify: Vote -> bool, t: Tracker, v: Vote, snap: Snapshot)
    requires AddVote(verify, t, v, snap).1.Some?
    ensures Countable(verify, v, snap) && forall w :: w in Pool(t, v.blockHash) ==> w.voter != v.voter
    ensures ReachesThreshold(VotedStake(Stakes(snap.validators), Pool(t, v.blockHash) + [v]), snap.totalStake)
  {
  }

  lemma PoolGains(verify: Vote -> bool, pool: seq<Vote>, hash: Hash, snap: Snapshot, feed: seq<Fed>, f: Fed)
    requires PoolOk(verify, pool, hash, snap, feed) && f.vote.blockHash == hash && Countable(verify, f.vote, snap)
    requires forall w :: w in pool ==> w.voter != f.vote.voter
    ensures PoolOk(verify, pool + [f.vote], hash, snap, feed + [f])
  {
    SignersGrow(verify, feed, f, hash, snap);
    assert forall i :: 0 <= i < |pool| ==> pool[i] in pool;
  }

  /** A vote that finalizes joins a pool of distinct signers that reaches the threshold. */
  lemma FinalizingPool(verify: Vote -> bool, t: Tracker, feed: seq<Fed>, f: Fed)
    requires PoolOk(verify, Pool(t, f.vote.blockHash), f.vote.blockHash, f.snap, feed)
    requires AddVote(verify, t, f.vote, f.snap).1.Some?
    ensures var pool := Pool(t, f.vote.blockHash) + [f.vote];
            && PoolOk(verify, pool, f.vote.blockHash, f.snap, feed + [f])
            && ReachesThreshold(VotedStake(Stakes(f.snap.validators), pool), f.snap.totalStake)
  {
    FinalizingVote(verify, t, f.vote, f.snap);
    PoolGains(verify, Pool(t, f.vote.blockHash), f.vote.blockHash, f.snap, feed, f);
  }

  lemma PoolQuorum(verify: Vote -> bool, pool: seq<Vote>, hash: Hash, snap: Snapshot, feed: seq<Fed>)
    requires WellFormed(snap) && PoolOk(verify, pool, hash, snap, feed)
    requires ReachesThreshold(VotedStake(Stakes(snap.validators), pool), snap.totalStake)
    ensures 3 * Weight(snap.validators, Signers(verify, feed, hash, snap)) >= 2 * snap.totalStake
  {
    VotedStakeIsWeight(snap.validators, pool);
    SaturationIsExact(VotedStake(Stakes(snap.validators), pool), snap.totalStake);
    WeightMonotone(snap.validators, Voters(pool), Signers(verify, feed, hash, snap));
  }

  /** A finalization is for the block voted on, and the signers fed so far hold two thirds of the stake. */
  lemma ReplyMeansQuorum(verify: Vote -> bool, start: Tracker, feed: seq<Fed>, i: nat, f: Finalized, snap: Snapshot)
    requires start.votes == map[] && i < |feed| && OneSnapshot(feed, f.hash, snap) && WellFormed(snap)
    requires Reply(verify, start, feed, i) == Some(f)
    ensures f == Finalized(feed[i].vote.blockHash, feed[i].vote.blockHeight)
    ensures 3 * Weight(snap.validators, Signers(verify, feed[..i + 1], f.hash, snap)) >= 2 * snap.totalStake
    ensures 3 * Weight(snap.validators, Signers(verify, feed, f.hash, snap)) >= 2 * snap.totalStake
  {
    var init := feed[..i];
    var t := Run(verify, start, init);
    assert f == Finalized(feed[i].vote.blockHash, feed[i].vote.blockHeight);
    RunPoolOk(verify, start, init, f.hash, snap);
    FinalizingPool(verify, t, init, feed[i]);
    assert feed[..i + 1] == init + [feed[i]];
    PoolQuorum(verify, Pool(t, f.hash) + [feed[i].vote], f.hash, snap, feed[..i + 1]);
    SignersPrefix(verify, feed, i + 1, f.hash, snap);
    WeightMonotone(snap.validators, Signers(verify, feed[..i + 1], f.hash, snap), Signers(verify, feed, f.hash, snap));
  }

  /**
  Accountable safety: if two trackers, fed any votes whatever, finalize blocks whose votes were
  counted under the same snapshot, the validators that signed for both hold at least a third of the
  stake. Votes for other blocks may have been counted under any snapshots.
  */
  lemma AccountableSafety(
    verify: Vote -> bool, snap: Snapshot,
    start1: Tracker, feed1: seq<Fed>, i: nat, f1: Finalized,
    start2: Tracker, feed2: seq<Fed>, j: nat, f2: Finalized)
    requires start1.votes == map[] && start2.votes == map[] && i < |feed1| && j < |feed2|
    requires Reply(verify, start1, feed1, i) == Some(f1)
    requires Reply(verify, start2, feed2, j) == Some(f2)
    requires OneSnapshot(feed1, f1.hash, snap) && OneSnapshot(feed2, f2.hash, snap) && WellFormed(snap)
    ensures 3 * Weight(snap.validators, Signers(verify, feed1, f1.hash, snap) * Signers(verify, feed2, f2.hash, snap))
            >= snap.totalStake
  {
    ReplyMeansQuorum(verify, start1, feed1, i, f1, snap);
    ReplyMeansQuorum(verify, start2, feed2, j, f2, snap);
    var a, b := Signers(verify, feed1, f1.hash, snap), Signers(verify, feed2, f2.hash, snap);
    WeightIntersection(snap.validators, a, b);
    WeightMonotone(snap.validators, a + b, Stakes(snap.validators).Keys);
  }

  /** The two votes are for different blocks at one height, by one voter, and both count. */
  ghost predicate Conflicts(verify: Vote -> bool, v: Vote, w: Vote, height: nat, snap: Snapshot)
  {
    && v.voter == w.voter && v.blockHash != w.blockHash && v.blockHeight == w.blockHeight == height
    && Countable(verify, v, snap) && Countable(verify, w, snap)
  }

  /** The validators with countable votes for two different blocks at one height, one in each sequence. */
  ghost function DoubleVoters(
    verify: Vote -> bool, feed1: seq<Fed>, feed2: seq<Fed>, height: nat, snap: Snapshot): set<Hash>
  {
    set i, j | 0 <= i < |feed1| && 0 <= j < |feed2| && Conflicts(verify, feed1[i].vote, feed2[j].vote, height, snap)
      :: feed1[i].vote.voter
  }

  ghost predicate VotesCarryHeight(feed: seq<Fed>, hash: Hash, height: nat)
  {
    forall i :: 0 <= i < |feed| && feed[i].vote.blockHash == hash ==> feed[i].vote.blockHeight == height
  }

  /** When every vote for either block carries its height, that third double-voted at that height. */
  lemma ConflictNeedsDoubleVotes(
    verify: Vote -> bool, snap: Snapshot, height: nat,
    start1: Tracker, feed1: seq<Fed>, i: nat, h1: Hash, start2: Tracker, feed2: seq<Fed>, j: nat, h2: Hash)
    requires start1.votes == map[] && start2.votes == map[] && i < |feed1| && j < |feed2| && h1 != h2
    requires Reply(verify, start1, feed1, i) == Some(Finalized(h1, height))
    requires Reply(verify, start2, feed2, j) == Some(Finalized(h2, height))
    requires OneSnapshot(feed1, h1, snap) && OneSnapshot(feed2, h2, snap) && WellFormed(snap)
    requires VotesCarryHeight(feed1, h1, height) && VotesCarryHeight(feed2, h2, height)
    ensures 3 * Weight(snap.validators, DoubleVoters(verify, feed1, feed2, height, snap)) >= snap.totalStake
  {
    AccountableSafety(verify, snap, start1, feed1, i, Finalized(h1, height), start2, feed2, j, Finalized(h2, height));
    var both := Signers(verify, feed1, h1, snap) * Signers(verify, feed2, h2, snap);
    var double := DoubleVoters(verify, feed1, feed2, height, snap);
    forall k | k in both
      ensures k in double
    {
      var a :| 0 <= a < |feed1| && feed1[a].vote.blockHash == h1 && Countable(verify, feed1[a].vote, snap) && feed1[a].vote.voter == k;
      var b :| 0 <= b < |feed2| && feed2[b].vote.blockHash == h2 && Countable(verify, feed2[b].vote, snap) && feed2[b].vote.voter == k;
      assert Conflicts(verify, feed1[a].vote, feed2[b].vote, height, snap);
    }
    WeightMonotone(snap.validators, both, double);
  }

  // ---------------------------------------------------------------------------
  // The exact threshold

  /** The signers of `hash` hold two thirds of a positive total stake. */
  ghost predicate Quorum(verify: Vote -> bool, feed: seq<Fed>, hash: Hash, snap: Snapshot)
  {
    snap.totalStake > 0 && 3 * Weight(snap.validators, Signers(verify, feed, hash, snap)) >= 2 * snap.totalStake
  }

  /** Every vote is for one block at one height, counted under one snapshot. */
  ghost predicate VotesFor(feed: seq<Fed>, hash: Hash, height: nat, snap: Snapshot)
  {
    forall i :: 0 <= i < |feed| ==>
      feed[i].vote.blockHash == hash && feed[i].vote.blockHeight == height && feed[i].snap == snap
  }

  /** Below the quorum the tracker has recorded exactly the signers; from the quorum on it has finalized the block. */
  ghost predicate Tally(verify: Vote -> bool, snap: Snapshot, start: Tracker, hash: Hash, height: nat,
                        feed: seq<Fed>, t: Tracker)
  {
    if Quorum(verify, feed, hash, snap) then t.finalizedHeight == height && t.finalizedHash == hash
    else
      var signers := Signers(verify, feed, hash, snap);
      && t.finalizedHeight == start.finalizedHeight && t.finalizedHash == start.finalizedHash
      && DistinctVoters(Pool(t, hash)) && Voters(Pool(t, hash)) == signers
      && (forall k :: (k, height) in t.seen <==> k in signers)
  }

  lemma SignersStep(verify: Vote -> bool, feed: seq<Fed>, f: Fed, hash: Hash, snap: Snapshot)
    requires f.vote.blockHash == hash
    ensures Signers(verify, feed + [f], hash, snap) ==
            Signers(verify, feed, hash, snap) + (if Countable(verify, f.vote, snap) then {f.vote.voter} else {})
  {
    SignersGrow(verify, feed, f, hash, snap);
  }

  /** A countable vote by a new signer is recorded, and finalizes exactly when it completes the quorum. */
  lemma TallyNewSigner(verify: Vote -> bool, snap: Snapshot, start: Tracker, hash: Hash, height: nat,
                       feed: seq<Fed>, t: Tracker, v: Vote)
    requires WellFormed(snap) && height > start.finalizedHeight
    requires v.blockHash == hash && v.blockHeight == height
    requires Tally(verify, snap, start, hash, height, feed, t) && !Quorum(verify, feed, hash, snap)
    requires Countable(verify, v, snap) && v.voter !in Signers(verify, feed, hash, snap)
    ensures Tally(verify, snap, start, hash, height, feed + [Fed(v, snap)], AddVote(verify, t, v, snap).0)
    ensures AddVote(verify, t, v, snap).1.Some? <==> Quorum(verify, feed + [Fed(v, snap)], hash, snap)
  {
    var pool, feed' := Pool(t, hash), feed + [Fed(v, snap)];
    SignersStep(verify, feed, Fed(v, snap), hash, snap);
    PoolStep(pool, v);
    NewVoteCounts(verify, t, v, snap);
    ThresholdIsQuorum(verify, pool + [v], hash, snap, feed');
  }

  lemma ThresholdIsQuorum(verify: Vote -> bool, pool: seq<Vote>, hash: Hash, snap: Snapshot, feed: seq<Fed>)
    requires WellFormed(snap) && DistinctVoters(pool) && Voters(pool) == Signers(verify, feed, hash, snap)
    ensures (snap.totalStake > 0 && ReachesThreshold(VotedStake(Stakes(snap.validators), pool), snap.totalStake))
            <==> Quorum(verify, feed, hash, snap)
  {
    VotedStakeIsWeight(snap.validators, pool);
    SaturationIsExact(VotedStake(Stakes(snap.validators), pool), snap.totalStake);
  }

  /** What a vote by a voter not seen before does. */
  lemma NewVoteCounts(verify: Vote -> bool, t: Tracker, v: Vote, snap: Snapshot)
    requires Admissible(verify, t, v, snap) && v.voter !in Voters(Pool(t, v.blockHash))
    ensures var pool, (t', r) := Pool(t, v.blockHash) + [v], AddVote(verify, t, v, snap);
            if snap.totalStake > 0 && ReachesThreshold(VotedStake(Stakes(snap.validators), pool), snap.totalStake)
            then r.Some? && t'.finalizedHeight == v.blockHeight && t'.finalizedHash == v.blockHash
            else r.None? && t' == t.(votes := t.votes[v.blockHash := pool], seen := t.seen + {(v.voter, v.blockHeight)})
  {
    var pool := Pool(t, v.blockHash);
    assert forall i :: 0 <= i < |pool| ==> pool[i].voter in Voters(pool);
  }

  lemma PoolStep(pool: seq<Vote>, v: Vote)
    requires DistinctVoters(pool) && v.voter !in Voters(pool)
    ensures DistinctVoters(pool + [v]) && Voters(pool + [v]) == Voters(pool) + {v.voter}
    ensures !(exists w :: w in pool && w.voter == v.voter)
  {
    var all := pool + [v];
    assert all[|pool|] == v;
    assert forall i :: 0 <= i < |pool| ==> all[i] == pool[i] && pool[i].voter in Voters(pool);
    forall k | k in Voters(pool)
      ensures k in Voters(all)
    {
      var i :| 0 <= i < |pool| && pool[i].voter == k;
      assert all[i].voter == k;
    }
  }

  lemma TallyStep(verify: Vote -> bool, snap: Snapshot, start: Tracker, hash: Hash, height: nat,
                  feed: seq<Fed>, t: Tracker, v: Vote)
    requires WellFormed(snap) && height > start.finalizedHeight
    requires v.blockHash == hash && v.blockHeight == height
    requires Tally(verify, snap, start, hash, height, feed, t)
    ensures Tally(verify, snap, start, hash, height, feed + [Fed(v, snap)], AddVote(verify, t, v, snap).0)
    ensures AddVote(verify, t, v, snap).1.Some? <==>
            Quorum(verify, feed + [Fed(v, snap)], hash, snap) && !Quorum(verify, feed, hash, snap)
  {
    var signers := Signers(verify, feed, hash, snap);
    SignersStep(verify, feed, Fed(v, snap), hash, snap);
    if Quorum(verify, feed, hash, snap) {
      WeightMonotone(snap.validators, signers, Signers(verify, feed + [Fed(v, snap)], hash, snap));
      assert AddVote(verify, t, v, snap) == (t, None);
    } else if Countable(verify, v, snap) && v.voter !in signers {
      TallyNewSigner(verify, snap, start, hash, height, feed, t, v);
    } else {
      assert AddVote(verify, t, v, snap) == (t, None);
      assert Signers(verify, feed + [Fed(v, snap)], hash, snap) == signers;
    }
  }

  lemma {:induction false} TallyRun(verify: Vote -> bool, snap: Snapshot, start: Tracker, hash: Hash, height: nat,
                                    feed: seq<Fed>)
    requires WellFormed(snap) && start.votes == map[] && start.seen == {} && height > start.finalizedHeight
    requires VotesFor(feed, hash, height, snap)
    ensures Tally(verify, snap, start, hash, height, feed, Run(verify, start, feed))
  {
    if feed == [] {
      assert Signers(verify, feed, hash, snap) == {} && Voters([]) == {};
      WeightEmpty(snap.validators);
    } else {
      var init, f := feed[..|feed| - 1], feed[|feed| - 1];
      assert feed == init + [Fed(f.vote, snap)];
      TallyRun(verify, snap, start, hash, height, init);
      TallyStep(verify, snap, start, hash, height, init, Run(verify, start, init), f.vote);
    }
  }

  /**
  The threshold is exact and order does not matter: fed any sequence of votes for one block above
  the finalized height (repeats, bad signatures, wrong epochs and strangers included), the tracker
  finalizes the block exactly at the vote that completes two thirds of the stake among the distinct
  countable voters, and so ends up having finalized it iff they hold two thirds.
  */
  lemma {:induction false} FinalizesExactlyAtQuorum(verify: Vote -> bool, snap: Snapshot, start: Tracker, hash: Hash, height: nat,
                                                    feed: seq<Fed>)
    requires WellFormed(snap) && start.votes == map[] && start.seen == {} && height > start.finalizedHeight
    requires VotesFor(feed, hash, height, snap)
    ensures forall i :: 0 <= i < |feed| ==>
              (Reply(verify, start, feed, i).Some? <==>
               Quorum(verify, feed[..i + 1], hash, snap) && !Quorum(verify, feed[..i], hash, snap))
    ensures Run(verify, start, feed).finalizedHeight ==
            if Quorum(verify, feed, hash, snap) then height else start.finalizedHeight
  {
    TallyRun(verify, snap, start, hash, height, feed);
    forall i | 0 <= i < |feed|
      ensures Reply(verify, start, feed, i).Some? <==>
              Quorum(verify, feed[..i + 1], hash, snap) && !Quorum(verify, feed[..i], hash, snap)
    {
      TallyRun(verify, snap, start, hash, height, feed[..i]);
      assert feed[..i + 1] == feed[..i] + [Fed(feed[i].vote, snap)];
      TallyStep(verify, snap, start, hash, height, feed[..i], Run(verify, start, feed[..i]), feed[i].vote);
    }
  }

  /** Over any run under any snapshots the finalized height never falls, and each finalization raises it. */
  lemma {:induction false} FinalizedHeightRises(verify: Vote -> bool, start: Tracker, feed: seq<Fed>, i: nat)
    requires i < |feed|
    ensures var before, after := Run(verify, start, feed[..i]), Run(verify, start, feed);
            && before.finalizedHeight <= after.finalizedHeight
            && (Reply(verify, start, feed, i).Some? ==> before.finalizedHeight < after.finalizedHeight)
  {
    var n := |feed| - 1;
    if i < n {
      FinalizedHeightRises(verify, start, feed[..n], i);
      assert feed[..n][..i] == feed[..i];
    }
  }

  /** A tracker whose finalized height has risen reported its present finalized block at some vote of the run. */
  lemma {:induction false} FinalizedWasReported(verify: Vote -> bool, start: Tracker, feed: seq<Fed>) returns (i: nat)
    requires Run(verify, start, feed).finalizedHeight != start.finalizedHeight
    ensures i < |feed|
    ensures var t := Run(verify, start, feed);
            Reply(verify, start, feed, i) == Some(Finalized(t.finalizedHash, t.finalizedHeight))
  {
    var n := |feed| - 1;
    var t := Run(verify, start, feed[..n]);
    if AddVote(verify, t, feed[n].vote, feed[n].snap).1.Some? {
      i := n;
    } else {
      i := FinalizedWasReported(verify, start, feed[..n]);
      assert feed[..n][..i] == feed[..i];
    }
  }
}
