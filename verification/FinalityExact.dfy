/**
The finality tracker's answers, exactly, for votes about any blocks at any heights in any order
(`add_vote` of `src/consensus/mod.rs`). The reference looks at the votes fed and nothing else: a
validator backs a block if its first countable vote at the block's height is for it.
*/
module FinalityExact {
  import opened Common
  import opened Finality

  // ---------------------------------------------------------------------------
  // The reference, over the votes fed

  predicate SameSlot(a: Fed, b: Fed)
  {
    a.vote.voter == b.vote.voter && a.vote.blockHeight == b.vote.blockHeight
  }

  /** The vote is signed, of its snapshot's epoch and by one of its validators. */
  ghost predicate Counts(verify: Vote -> bool, f: Fed)
  {
    && verify(f.vote) && f.vote.epoch == f.snap.epoch
    && exists i :: 0 <= i < |f.snap.validators| && f.snap.validators[i].publicKey == f.vote.voter
  }

  /** Vote `j` counts, and no earlier vote of its voter at its height does. */
  ghost predicate First(verify: Vote -> bool, feed: seq<Fed>, j: nat)
    requires j < |feed|
  {
    Counts(verify, feed[j]) && forall k :: 0 <= k < j && SameSlot(feed[k], feed[j]) ==> !Counts(verify, feed[k])
  }

  ghost predicate Backs(verify: Vote -> bool, feed: seq<Fed>, j: nat, hash: Hash, height: nat)
    requires j < |feed|
  {
    First(verify, feed, j) && feed[j].vote.blockHash == hash && feed[j].vote.blockHeight == height
  }

  /** The validators whose first countable vote at this height, among the first `n` votes, is for this block. */
  ghost function Backers(verify: Vote -> bool, feed: seq<Fed>, n: nat, hash: Hash, height: nat): set<Hash>
    requires n <= |feed|
  {
    set j | 0 <= j < n && Backs(verify, feed, j, hash, height) :: feed[j].vote.voter
  }

  ghost predicate TwoThirds(snap: Snapshot, keys: set<Hash>)
  {
    snap.totalStake > 0 && 3 * Weight(snap.validators, keys) >= 2 * snap.totalStake
  }

  /** Some block at this height has two thirds behind it after `n` votes. */
  ghost predicate Reached(verify: Vote -> bool, snapAt: nat -> Snapshot, feed: seq<Fed>, n: nat, height: nat)
    requires n <= |feed|
  {
    exists j :: 0 <= j < n && feed[j].vote.blockHeight == height
                && TwoThirds(snapAt(height), Backers(verify, feed, n, feed[j].vote.blockHash, height))
  }

  /** Vote `i` gives its block two thirds, above the starting height, when no block at its height or higher had them before. */
  ghost predicate Completes(verify: Vote -> bool, snapAt: nat -> Snapshot, start: nat, feed: seq<Fed>, i: nat)
    requires i < |feed|
  {
    var v := feed[i].vote;
    && v.blockHeight > start
    && TwoThirds(snapAt(v.blockHeight), Backers(verify, feed, i + 1, v.blockHash, v.blockHeight))
    && forall h: nat :: h >= v.blockHeight ==> !Reached(verify, snapAt, feed, i, h)
  }

  /** Snapshots go by height and are well made, and countable votes for one block carry one height. */
  ghost predicate Regular(verify: Vote -> bool, snapAt: nat -> Snapshot, heightOf: Hash -> nat, feed: seq<Fed>)
  {
    && (forall h: nat :: WellFormed(snapAt(h)))
    && (forall j :: 0 <= j < |feed| ==> feed[j].snap == snapAt(feed[j].vote.blockHeight))
    && (forall j :: 0 <= j < |feed| && Counts(verify, feed[j]) ==> feed[j].vote.blockHeight == heightOf(feed[j].vote.blockHash))
  }

  // ---------------------------------------------------------------------------
  // About the reference

  lemma CountsIsCountable(verify: Vote -> bool, f: Fed)
    ensures Counts(verify, f) <==> Countable(verify, f.vote, f.snap)
  {
    StakesKeys(f.snap.validators, f.vote.voter);
  }

  /** No validator backs two blocks at one height. */
  lemma NoDoubleBacking(verify: Vote -> bool, feed: seq<Fed>, n: nat, x: Hash, y: Hash, height: nat)
    requires n <= |feed| && x != y
    ensures Backers(verify, feed, n, x, height) !! Backers(verify, feed, n, y, height)
  {
    forall w | w in Backers(verify, feed, n, x, height) && w in Backers(verify, feed, n, y, height)
      ensures false
    {
      var j :| 0 <= j < n && Backs(verify, feed, j, x, height) && feed[j].vote.voter == w;
      var k :| 0 <= k < n && Backs(verify, feed, k, y, height) && feed[k].vote.voter == w;
      OneFirst(verify, feed, j, k);
    }
  }

  /** A voter has one first vote at a height. */
  lemma OneFirst(verify: Vote -> bool, feed: seq<Fed>, j: nat, k: nat)
    requires j < |feed| && k < |feed| && First(verify, feed, j) && First(verify, feed, k)
    requires SameSlot(feed[j], feed[k]) && SameSlot(feed[k], feed[j])
    ensures j == k
  {
  }

  lemma BackersNext(verify: Vote -> bool, feed: seq<Fed>, n: nat, x: Hash, height: nat)
    requires n < |feed|
    ensures Backs(verify, feed, n, x, height) ==>
              Backers(verify, feed, n + 1, x, height) == Backers(verify, feed, n, x, height) + {feed[n].vote.voter}
    ensures !Backs(verify, feed, n, x, height) ==>
              Backers(verify, feed, n + 1, x, height) == Backers(verify, feed, n, x, height)
  {
  }

  /** The voter has a countable vote at the height among the first `n`. */
  ghost predicate Voted(verify: Vote -> bool, feed: seq<Fed>, n: nat, voter: Hash, height: nat)
    requires n <= |feed|
  {
    exists k :: 0 <= k < n && feed[k].vote.voter == voter && feed[k].vote.blockHeight == height && Counts(verify, feed[k])
  }

  lemma BackersVoted(verify: Vote -> bool, feed: seq<Fed>, n: nat, x: Hash, height: nat, w: Hash)
    requires n <= |feed| && w in Backers(verify, feed, n, x, height)
    ensures Voted(verify, feed, n, w, height)
  {
  }

  lemma FirstIff(verify: Vote -> bool, feed: seq<Fed>, n: nat)
    requires n < |feed|
    ensures First(verify, feed, n) <==>
            Counts(verify, feed[n]) && !Voted(verify, feed, n, feed[n].vote.voter, feed[n].vote.blockHeight)
  {
  }

  lemma VotedNext(verify: Vote -> bool, feed: seq<Fed>, n: nat, w: Hash, height: nat)
    requires n < |feed|
    ensures Voted(verify, feed, n + 1, w, height) <==>
            Voted(verify, feed, n, w, height)
            || (Counts(verify, feed[n]) && feed[n].vote.voter == w && feed[n].vote.blockHeight == height)
  {
  }

  /** A block with two thirds behind it was voted for. */
  lemma ReachedByBlock(verify: Vote -> bool, snapAt: nat -> Snapshot, feed: seq<Fed>, n: nat, x: Hash, height: nat)
    requires n <= |feed| && WellFormed(snapAt(height))
    requires TwoThirds(snapAt(height), Backers(verify, feed, n, x, height))
    ensures Reached(verify, snapAt, feed, n, height)
  {
    var b := Backers(verify, feed, n, x, height);
    if b == {} { WeightEmpty(snapAt(height).validators); }
    var w :| w in b;
    var j :| 0 <= j < n && Backs(verify, feed, j, x, height) && feed[j].vote.voter == w;
    assert feed[j].vote.blockHeight == height;
  }

  // ---------------------------------------------------------------------------
  // The tracker follows the reference

  /** The pool of a block above the finalized height is its backers, once each, at the block's height. */
  ghost predicate PoolIs(verify: Vote -> bool, heightOf: Hash -> nat, feed: seq<Fed>, n: nat, t: Tracker, x: Hash)
    requires n <= |feed|
  {
    heightOf(x) > t.finalizedHeight ==>
      && DistinctVoters(Pool(t, x)) && Voters(Pool(t, x)) == Backers(verify, feed, n, x, heightOf(x))
      && (forall i :: 0 <= i < |Pool(t, x)| ==> Pool(t, x)[i].blockHeight == heightOf(x))
  }

  ghost predicate SeenIs(verify: Vote -> bool, feed: seq<Fed>, n: nat, t: Tracker, w: Hash, height: nat)
    requires n <= |feed|
  {
    height > t.finalizedHeight ==> ((w, height) in t.seen <==> Voted(verify, feed, n, w, height))
  }

  /** The finalized height is the starting one, or the greatest with two thirds behind one of its blocks. */
  ghost predicate HeightIs(verify: Vote -> bool, snapAt: nat -> Snapshot, start: nat, feed: seq<Fed>, n: nat, t: Tracker)
    requires n <= |feed|
  {
    && t.finalizedHeight >= start
    && (forall h: nat :: Reached(verify, snapAt, feed, n, h) ==> h <= t.finalizedHeight || h <= start)
    && (t.finalizedHeight > start ==> Reached(verify, snapAt, feed, n, t.finalizedHeight))
  }

  ghost predicate Follows(
    verify: Vote -> bool, snapAt: nat -> Snapshot, heightOf: Hash -> nat, start: nat, feed: seq<Fed>, n: nat, t: Tracker)
    requires n <= |feed|
  {
    && (forall x {:trigger PoolIs(verify, heightOf, feed, n, t, x)} :: PoolIs(verify, heightOf, feed, n, t, x))
    && (forall w, h {:trigger SeenIs(verify, feed, n, t, w, h)} :: SeenIs(verify, feed, n, t, w, h))
    && HeightIs(verify, snapAt, start, feed, n, t)
  }

  lemma FollowsStart(verify: Vote -> bool, snapAt: nat -> Snapshot, heightOf: Hash -> nat, start: Tracker, feed: seq<Fed>)
    requires start.votes == map[] && start.seen == {}
    ensures Follows(verify, snapAt, heightOf, start.finalizedHeight, feed, 0, start)
  {
    forall x
      ensures PoolIs(verify, heightOf, feed, 0, start, x)
    { assert Voters(Pool(start, x)) == {} == Backers(verify, feed, 0, x, heightOf(x)); }
  }

  /** A vote that changes no backer, at a height that is finalized or by a voter already counted or not countable at all. */
  lemma IdleStep(
    verify: Vote -> bool, snapAt: nat -> Snapshot, heightOf: Hash -> nat, start: nat, feed: seq<Fed>, n: nat, t: Tracker)
    requires n < |feed| && Regular(verify, snapAt, heightOf, feed) && Follows(verify, snapAt, heightOf, start, feed, n, t)
    requires feed[n].vote.blockHeight <= t.finalizedHeight || !First(verify, feed, n)
    ensures AddVote(verify, t, feed[n].vote, feed[n].snap) == (t, None)
    ensures Follows(verify, snapAt, heightOf, start, feed, n + 1, t)
  {
    var m := n + 1;
    var v := feed[n].vote;
    CountsIsCountable(verify, feed[n]);
    FirstIff(verify, feed, n);
    assert SeenIs(verify, feed, n, t, v.voter, v.blockHeight);
    forall x
      ensures PoolIs(verify, heightOf, feed, m, t, x)
    {
      assert PoolIs(verify, heightOf, feed, n, t, x);
      BackersNext(verify, feed, n, x, heightOf(x));
    }
    forall w, h
      ensures SeenIs(verify, feed, m, t, w, h)
    {
      assert SeenIs(verify, feed, n, t, w, h);
      VotedNext(verify, feed, n, w, h);
    }
    IdleHeights(verify, snapAt, start, feed, n, t);
  }

  lemma IdleHeights(verify: Vote -> bool, snapAt: nat -> Snapshot, start: nat, feed: seq<Fed>, n: nat, t: Tracker)
    requires n < |feed| && HeightIs(verify, snapAt, start, feed, n, t) && forall h: nat :: WellFormed(snapAt(h))
    requires feed[n].vote.blockHeight <= t.finalizedHeight || !First(verify, feed, n)
    ensures HeightIs(verify, snapAt, start, feed, n + 1, t)
  {
    var m := n + 1;
    forall h: nat | Reached(verify, snapAt, feed, m, h) && h > t.finalizedHeight
      ensures h <= start
    {
      var j :| 0 <= j < m && feed[j].vote.blockHeight == h
               && TwoThirds(snapAt(h), Backers(verify, feed, m, feed[j].vote.blockHash, h));
      BackersNext(verify, feed, n, feed[j].vote.blockHash, h);
      ReachedByBlock(verify, snapAt, feed, n, feed[j].vote.blockHash, h);
    }
    if t.finalizedHeight > start { ReachedGrows(verify, snapAt, feed, n, t.finalizedHeight); }
  }

  lemma ReachedGrows(verify: Vote -> bool, snapAt: nat -> Snapshot, feed: seq<Fed>, n: nat, h: nat)
    requires n < |feed| && Reached(verify, snapAt, feed, n, h)
    ensures Reached(verify, snapAt, feed, n + 1, h)
  {
    var j :| 0 <= j < n && feed[j].vote.blockHeight == h
             && TwoThirds(snapAt(h), Backers(verify, feed, n, feed[j].vote.blockHash, h));
    BackersNext(verify, feed, n, feed[j].vote.blockHash, h);
    WeightMonotone(snapAt(h).validators, Backers(verify, feed, n, feed[j].vote.blockHash, h),
                   Backers(verify, feed, n + 1, feed[j].vote.blockHash, h));
  }

  /** The first vote of its voter at a height above finality joins the pool of its block. */
  lemma JoinsPool(
    verify: Vote -> bool, snapAt: nat -> Snapshot, heightOf: Hash -> nat, start: nat, feed: seq<Fed>, n: nat, t: Tracker)
    requires n < |feed| && Regular(verify, snapAt, heightOf, feed) && Follows(verify, snapAt, heightOf, start, feed, n, t)
    requires feed[n].vote.blockHeight > t.finalizedHeight && First(verify, feed, n)
    ensures var v, snap := feed[n].vote, feed[n].snap;
            var pool := Pool(t, v.blockHash) + [v];
            && heightOf(v.blockHash) == v.blockHeight
            && Admissible(verify, t, v, snap) && v.voter !in Voters(Pool(t, v.blockHash))
            && DistinctVoters(pool) && Voters(pool) == Backers(verify, feed, n + 1, v.blockHash, v.blockHeight)
            && (forall i :: 0 <= i < |pool| ==> pool[i].blockHeight == v.blockHeight)
            && ((snap.totalStake > 0 && ReachesThreshold(VotedStake(Stakes(snap.validators), pool), snap.totalStake))
                <==> TwoThirds(snap, Backers(verify, feed, n + 1, v.blockHash, v.blockHeight)))
  {
    var v, snap := feed[n].vote, feed[n].snap;
    CountsIsCountable(verify, feed[n]);
    FirstIff(verify, feed, n);
    assert SeenIs(verify, feed, n, t, v.voter, v.blockHeight);
    assert PoolIs(verify, heightOf, feed, n, t, v.blockHash);
    if v.voter in Voters(Pool(t, v.blockHash)) { BackersVoted(verify, feed, n, v.blockHash, v.blockHeight, v.voter); }
    PoolStep(Pool(t, v.blockHash), v);
    BackersNext(verify, feed, n, v.blockHash, v.blockHeight);
    var pool := Pool(t, v.blockHash) + [v];
    VotedStakeIsWeight(snap.validators, pool);
    SaturationIsExact(VotedStake(Stakes(snap.validators), pool), snap.totalStake);
  }

  /** It finalizes its block when that completes two thirds. */
  lemma FinalizingStep(
    verify: Vote -> bool, snapAt: nat -> Snapshot, heightOf: Hash -> nat, start: nat, feed: seq<Fed>, n: nat, t: Tracker)
    requires n < |feed| && Regular(verify, snapAt, heightOf, feed) && Follows(verify, snapAt, heightOf, start, feed, n, t)
    requires feed[n].vote.blockHeight > t.finalizedHeight && First(verify, feed, n)
    requires TwoThirds(feed[n].snap, Backers(verify, feed, n + 1, feed[n].vote.blockHash, feed[n].vote.blockHeight))
    ensures var v, (t', r) := feed[n].vote, AddVote(verify, t, feed[n].vote, feed[n].snap);
            && r == Some(Finalized(v.blockHash, v.blockHeight)) && t'.finalizedHeight == v.blockHeight
            && Follows(verify, snapAt, heightOf, start, feed, n + 1, t')
  {
    var m := n + 1;
    var v := feed[n].vote;
    var t' := AddVote(verify, t, v, feed[n].snap).0;
    JoinsPool(verify, snapAt, heightOf, start, feed, n, t);
    NoSameVoter(Pool(t, v.blockHash), v.voter);
    var votes := t.votes[v.blockHash := Pool(t, v.blockHash) + [v]];
    assert t' == Tracker(PoolsAbove(votes, v.blockHeight), SeenAbove(t.seen + {(v.voter, v.blockHeight)}, v.blockHeight),
                         v.blockHeight, v.blockHash);
    forall x
      ensures PoolIs(verify, heightOf, feed, m, t', x)
    {
      assert PoolIs(verify, heightOf, feed, n, t, x);
      BackersNext(verify, feed, n, x, heightOf(x));
      if heightOf(x) > v.blockHeight { PoolKept(t, t', x, votes, v, heightOf(x)); }
    }
    forall w, h
      ensures SeenIs(verify, feed, m, t', w, h)
    {
      assert SeenIs(verify, feed, n, t, w, h);
      VotedNext(verify, feed, n, w, h);
    }
    FinalizedHeights(verify, snapAt, start, feed, n, t, t');
  }

  lemma NoSameVoter(pool: seq<Vote>, voter: Hash)
    requires voter !in Voters(pool)
    ensures !exists w :: w in pool && w.voter == voter
  {
    forall w | w in pool
      ensures w.voter != voter
    {
      var i :| 0 <= i < |pool| && pool[i] == w;
      assert pool[i].voter in Voters(pool);
    }
  }

  /** The pools of higher blocks survive a finalization. */
  lemma PoolKept(t: Tracker, t': Tracker, x: Hash, votes: map<Hash, seq<Vote>>, v: Vote, height: nat)
    requires x != v.blockHash && height > v.blockHeight
    requires votes == t.votes[v.blockHash := Pool(t, v.blockHash) + [v]] && t'.votes == PoolsAbove(votes, v.blockHeight)
    requires forall i :: 0 <= i < |Pool(t, x)| ==> Pool(t, x)[i].blockHeight == height
    ensures Pool(t', x) == Pool(t, x)
  {
  }

  lemma FinalizedHeights(verify: Vote -> bool, snapAt: nat -> Snapshot, start: nat, feed: seq<Fed>, n: nat, t: Tracker, t': Tracker)
    requires n < |feed| && HeightIs(verify, snapAt, start, feed, n, t) && forall h: nat :: WellFormed(snapAt(h))
    requires var v := feed[n].vote;
             && t'.finalizedHeight == v.blockHeight > t.finalizedHeight
             && TwoThirds(snapAt(v.blockHeight), Backers(verify, feed, n + 1, v.blockHash, v.blockHeight))
    ensures HeightIs(verify, snapAt, start, feed, n + 1, t')
  {
    var m := n + 1;
    var v := feed[n].vote;
    forall h: nat | Reached(verify, snapAt, feed, m, h)
      ensures h <= t'.finalizedHeight
    {
      var j :| 0 <= j < m && feed[j].vote.blockHeight == h
               && TwoThirds(snapAt(h), Backers(verify, feed, m, feed[j].vote.blockHash, h));
      if h != v.blockHeight {
        BackersNext(verify, feed, n, feed[j].vote.blockHash, h);
        ReachedByBlock(verify, snapAt, feed, n, feed[j].vote.blockHash, h);
      }
    }
    ReachedByBlock(verify, snapAt, feed, m, v.blockHash, v.blockHeight);
  }

  /** Otherwise it is only recorded. */
  lemma RecordingStep(
    verify: Vote -> bool, snapAt: nat -> Snapshot, heightOf: Hash -> nat, start: nat, feed: seq<Fed>, n: nat, t: Tracker)
    requires n < |feed| && Regular(verify, snapAt, heightOf, feed) && Follows(verify, snapAt, heightOf, start, feed, n, t)
    requires feed[n].vote.blockHeight > t.finalizedHeight && First(verify, feed, n)
    requires !TwoThirds(feed[n].snap, Backers(verify, feed, n + 1, feed[n].vote.blockHash, feed[n].vote.blockHeight))
    ensures var (t', r) := AddVote(verify, t, feed[n].vote, feed[n].snap);
            r == None && Follows(verify, snapAt, heightOf, start, feed, n + 1, t')
  {
    var m := n + 1;
    var v := feed[n].vote;
    var t' := AddVote(verify, t, v, feed[n].snap).0;
    JoinsPool(verify, snapAt, heightOf, start, feed, n, t);
    NewVoteCounts(verify, t, v, feed[n].snap);
    forall x
      ensures PoolIs(verify, heightOf, feed, m, t', x)
    {
      assert PoolIs(verify, heightOf, feed, n, t, x);
      BackersNext(verify, feed, n, x, heightOf(x));
    }
    forall w, h
      ensures SeenIs(verify, feed, m, t', w, h)
    {
      assert SeenIs(verify, feed, n, t, w, h);
      VotedNext(verify, feed, n, w, h);
    }
    RecordedHeights(verify, snapAt, start, feed, n, t, t');
  }

  lemma RecordedHeights(verify: Vote -> bool, snapAt: nat -> Snapshot, start: nat, feed: seq<Fed>, n: nat, t: Tracker, t': Tracker)
    requires n < |feed| && HeightIs(verify, snapAt, start, feed, n, t) && forall h: nat :: WellFormed(snapAt(h))
    requires var v := feed[n].vote;
             && t'.finalizedHeight == t.finalizedHeight
             && !TwoThirds(snapAt(v.blockHeight), Backers(verify, feed, n + 1, v.blockHash, v.blockHeight))
    ensures HeightIs(verify, snapAt, start, feed, n + 1, t')
  {
    var m := n + 1;
    var v := feed[n].vote;
    forall h: nat | Reached(verify, snapAt, feed, m, h)
      ensures h <= t'.finalizedHeight || h <= start
    {
      var j :| 0 <= j < m && feed[j].vote.blockHeight == h
               && TwoThirds(snapAt(h), Backers(verify, feed, m, feed[j].vote.blockHash, h));
      BackersNext(verify, feed, n, feed[j].vote.blockHash, h);
      ReachedByBlock(verify, snapAt, feed, n, feed[j].vote.blockHash, h);
    }
    if t.finalizedHeight > start { ReachedGrows(verify, snapAt, feed, n, t.finalizedHeight); }
  }

  lemma {:induction false} RunFollows(
    verify: Vote -> bool, snapAt: nat -> Snapshot, heightOf: Hash -> nat, start: Tracker, feed: seq<Fed>, n: nat)
    requires start.votes == map[] && start.seen == {} && n <= |feed| && Regular(verify, snapAt, heightOf, feed)
    ensures Follows(verify, snapAt, heightOf, start.finalizedHeight, feed, n, Run(verify, start, feed[..n]))
  {
    if n == 0 {
      FollowsStart(verify, snapAt, heightOf, start, feed);
    } else {
      RunFollows(verify, snapAt, heightOf, start, feed, n - 1);
      assert feed[..n][..n - 1] == feed[..n - 1];
      StepFollows(verify, snapAt, heightOf, start.finalizedHeight, feed, n - 1, Run(verify, start, feed[..n - 1]));
    }
  }

  lemma StepFollows(
    verify: Vote -> bool, snapAt: nat -> Snapshot, heightOf: Hash -> nat, start: nat, feed: seq<Fed>, n: nat, t: Tracker)
    requires n < |feed| && Regular(verify, snapAt, heightOf, feed) && Follows(verify, snapAt, heightOf, start, feed, n, t)
    ensures var v, (t', r) := feed[n].vote, AddVote(verify, t, feed[n].vote, feed[n].snap);
            && Follows(verify, snapAt, heightOf, start, feed, n + 1, t')
            && r == if v.blockHeight > t.finalizedHeight && First(verify, feed, n)
                       && TwoThirds(feed[n].snap, Backers(verify, feed, n + 1, v.blockHash, v.blockHeight))
                    then Some(Finalized(v.blockHash, v.blockHeight)) else None
  {
    var v := feed[n].vote;
    if v.blockHeight <= t.finalizedHeight || !First(verify, feed, n) {
      IdleStep(verify, snapAt, heightOf, start, feed, n, t);
    } else if TwoThirds(feed[n].snap, Backers(verify, feed, n + 1, v.blockHash, v.blockHeight)) {
      FinalizingStep(verify, snapAt, heightOf, start, feed, n, t);
    } else {
      RecordingStep(verify, snapAt, heightOf, start, feed, n, t);
    }
  }

  /**
  What a fresh tracker answers to each of any sequence of votes, for any blocks at any heights: it
  reports vote `i`'s block exactly when that vote gives the block two thirds and no block at its
  height or above had them before. Nothing else it has kept makes a difference.
  */
  lemma AnswersExactly(
    verify: Vote -> bool, snapAt: nat -> Snapshot, heightOf: Hash -> nat, start: Tracker, feed: seq<Fed>, i: nat)
    requires start.votes == map[] && start.seen == {} && i < |feed| && Regular(verify, snapAt, heightOf, feed)
    ensures Reply(verify, start, feed, i)
         == if Completes(verify, snapAt, start.finalizedHeight, feed, i)
            then Some(Finalized(feed[i].vote.blockHash, feed[i].vote.blockHeight)) else None
  {
    var v, t, fh := feed[i].vote, Run(verify, start, feed[..i]), start.finalizedHeight;
    RunFollows(verify, snapAt, heightOf, start, feed, i);
    StepFollows(verify, snapAt, heightOf, fh, feed, i, t);
    BackersNext(verify, feed, i, v.blockHash, v.blockHeight);
    if Completes(verify, snapAt, fh, feed, i) {
      if !First(verify, feed, i) {
        ReachedByBlock(verify, snapAt, feed, i, v.blockHash, v.blockHeight);
      }
    }
  }

  /** And its finalized height is the starting one or the greatest height at which some block has two thirds behind it. */
  lemma FinalizedHeightExactly(
    verify: Vote -> bool, snapAt: nat -> Snapshot, heightOf: Hash -> nat, start: Tracker, feed: seq<Fed>, h: nat)
    requires start.votes == map[] && start.seen == {} && Regular(verify, snapAt, heightOf, feed)
    requires h > start.finalizedHeight
    ensures Run(verify, start, feed).finalizedHeight >= h <==>
            exists k: nat :: k >= h && Reached(verify, snapAt, feed, |feed|, k)
  {
    RunFollows(verify, snapAt, heightOf, start, feed, |feed|);
    assert feed[..|feed|] == feed;
  }

  // ---------------------------------------------------------------------------
  // Votes that give one block two heights

  /**
  The condition that votes for one block carry one height is needed: of three validators with one
  unit each, one votes for `x` at height 1 and another for `x` at height 2, and the tracker reports
  `x` at height 2, where a single validator backs it.
  */
  lemma HeightsArePooled(verify: Vote -> bool, x: Hash, a: Hash, b: Hash, c: Hash)
    requires a != b && b != c && a != c
    requires verify(Vote(x, 1, 0, a, [])) && verify(Vote(x, 2, 0, b, []))
    ensures var snap := ThreeUnits(a, b, c);
            var feed := [Fed(Vote(x, 1, 0, a, []), snap), Fed(Vote(x, 2, 0, b, []), snap)];
            && Reply(verify, WithFinalized(0, []), feed, 1) == Some(Finalized(x, 2))
            && !Completes(verify, (h: nat) => snap, 0, feed, 1)
  {
    var snap, v, w := ThreeUnits(a, b, c), Vote(x, 1, 0, a, []), Vote(x, 2, 0, b, []);
    var feed := [Fed(v, snap), Fed(w, snap)];
    ThreeStakes(a, b, c);
    TwoPooled(verify, snap, v, w);
    assert feed[..1] == [Fed(v, snap)] && feed[..1][..0] == [];
    assert Run(verify, WithFinalized(0, []), feed[..1]) == AddVote(verify, WithFinalized(0, []), v, snap).0;
    assert Backers(verify, feed, 2, x, 2) <= {b};
    WeightMonotone(snap.validators, Backers(verify, feed, 2, x, 2), {b});
  }

  /** Three validators with one unit of stake each. */
  function ThreeUnits(a: Hash, b: Hash, c: Hash): Snapshot
  {
    Snapshot(0, 0, [Validator([], a, 1), Validator([], b, 1), Validator([], c, 1)], 3)
  }

  lemma TwoPooled(verify: Vote -> bool, snap: Snapshot, v: Vote, w: Vote)
    requires verify(v) && verify(w) && v.epoch == w.epoch == snap.epoch && v.blockHash == w.blockHash && v.voter != w.voter
    requires v.blockHeight == 1 && w.blockHeight == 2 && snap.totalStake == 3
    requires var s := Stakes(snap.validators); v.voter in s && w.voter in s && s[v.voter] == s[w.voter] == 1
    ensures var t := AddVote(verify, WithFinalized(0, []), v, snap).0;
            AddVote(verify, t, w, snap).1 == Some(Finalized(w.blockHash, 2))
  {
    var s, start := Stakes(snap.validators), WithFinalized(0, []);
    var none: seq<Vote> := [];
    assert none + [v] == [v] && [v] + [w] == [v, w];
    assert [v][..0] == none && [v, w][..1] == [v];
    assert VotedStake(s, none) == 0 && VotedStake(s, [v]) == 1 && VotedStake(s, [v, w]) == 2;
    NewVoteCounts(verify, start, v, snap);
    var t := AddVote(verify, start, v, snap).0;
    assert Pool(t, v.blockHash) == [v] && Voters([v]) == {v.voter};
    NewVoteCounts(verify, t, w, snap);
  }

  lemma ThreeStakes(a: Hash, b: Hash, c: Hash)
    requires a != b && b != c && a != c
    ensures var vs := [Validator([], a, 1), Validator([], b, 1), Validator([], c, 1)];
            Stakes(vs) == map[a := 1, b := 1, c := 1] && Weight(vs, {b}) == 1
  {
    var va, vb, vc := Validator([], a, 1), Validator([], b, 1), Validator([], c, 1);
    assert [va, vb, vc][..2] == [va, vb] && [va, vb][..1] == [va] && [va][..0] == [];
    assert Stakes([va]) == map[a := 1];
    assert Stakes([va, vb]) == Stakes([va])[b := 1];
    assert Stakes([va, vb, vc]) == Stakes([va, vb])[c := 1];
    assert Weight([], {b}) == 0 && Weight([va], {b}) == 0 && Weight([va, vb], {b}) == 1;
  }
}
