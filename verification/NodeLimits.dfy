/**
Where the safety of nodes ends. Blocks finalized at different heights may conflict although nobody
signed twice at one height; and a restart (`with_storage_mode` of `src/core/chain/mod.rs`) rebuilds
the block tree with finality at genesis beside a tracker at the stored height.
*/
module NodeLimits {
  import opened Common
  import opened ForkTree
  import opened Node
  import F = Finality

  // ---------------------------------------------------------------------------
  // Runs as values

  ghost function After(cfg: Config, g: Block, events: seq<Event>): (n: Node)
    requires g.height == 0
    ensures NodeInv(n, g)
  {
    if events == [] then
      StartInv(g);
      StartNode(g)
    else
      var n, e := After(cfg, g, events[..|events| - 1]), events[|events| - 1];
      DeliverInv(cfg, n, g, e);
      Deliver(cfg, n, e)
  }

  ghost function States(cfg: Config, g: Block, events: seq<Event>): (states: seq<Node>)
    requires g.height == 0
    ensures |states| == |events| + 1 && states[|events|] == After(cfg, g, events)
  {
    assert events[..|events|] == events;
    seq(|events| + 1, i requires 0 <= i <= |events| => After(cfg, g, events[..i]))
  }

  lemma StatesAreRun(cfg: Config, g: Block, events: seq<Event>)
    requires g.height == 0
    ensures IsNodeRun(cfg, g, States(cfg, g, events), events)
  {
    var states := States(cfg, g, events);
    assert events[..0] == [];
    forall i | 0 <= i < |events|
      ensures DeliveredAt(cfg, states, events, i)
    { assert events[..i + 1][..i] == events[..i]; }
  }

  // ---------------------------------------------------------------------------
  // Conflict at two heights

  /** A node that has counted no vote. */
  ghost predicate Untouched(n: Node)
  {
    n.tracker == F.WithFinalized(0, []) && n.fed == [] && n.ledger.tree.finalizedHeight == 0
  }

  lemma BlockExtends(cfg: Config, n: Node, g: Block, b: Block, x: Hash)
    requires NodeInv(n, g) && Untouched(n)
    requires b.prevHash == n.ledger.tree.tip && b.hash !in n.ledger.tree.entries
    requires b.height == n.ledger.tree.entries[n.ledger.tree.tip].block.height + 1
    ensures var n' := Deliver(cfg, n, NewBlock(b, 1));
            && Untouched(n') && n'.ledger.tree.tip == b.hash
            && (x in n'.ledger.tree.entries ==> x == b.hash || x in n.ledger.tree.entries)
            && n'.ledger.tree.entries[b.hash].block == b
  {
  }

  function Lone(key: Hash): F.Snapshot
  {
    F.Snapshot(0, 0, [F.Validator([], key, 1)], 1)
  }

  lemma LoneWellFormed(key: Hash)
    ensures F.Stakes(Lone(key).validators) == map[key := 1] && F.WellFormed(Lone(key))
  {
    var v := F.Validator([], key, 1);
    assert [v][..0] == [];
    assert F.Stakes([v]) == map[key := 1];
    assert F.Weight([v], {key}) == F.Weight([], {key}) + 1;
  }

  /** One epoch, every signature valid. */
  ghost function OneEpoch(): Config
  {
    Config((v: F.Vote) => true, (h: nat) => 0)
  }

  function VoteOf(b: Block, key: Hash): Event
  {
    NewVote(F.Vote(b.hash, b.height, 0, key, []), map[0 := Lone(key)])
  }

  /** The only validator's vote finalizes the tip. */
  lemma LoneVoteFinalizes(n: Node, g: Block, b: Block, key: Hash, x: Hash)
    requires NodeInv(n, g) && Untouched(n) && b.height > 0
    requires n.ledger.tree.tip == b.hash && n.ledger.tree.entries[b.hash].block == b
    ensures var n', e := Deliver(OneEpoch(), n, VoteOf(b, key)), VoteOf(b, key);
            && n'.ledger.tree.finalizedHash == b.hash && n'.ledger.tree.finalizedHeight == b.height
            && n'.fed == [F.Fed(e.vote, Lone(key))]
            && (x in n'.ledger.tree.entries ==> x in n.ledger.tree.entries)
  {
    LoneWellFormed(key);
    var v := VoteOf(b, key).vote;
    var pool := F.Pool(n.tracker, b.hash) + [v];
    assert pool == [v] && [v][..0] == [];
    assert F.VotedStake(map[key := 1], [v]) == F.VotedStake(map[key := 1], []) + 1;
    assert Path(n.ledger.tree.entries, b.hash)[b.height] == b.hash;
  }

  lemma LoneAgrees(events: seq<Event>, key: Hash)
    requires forall i :: 0 <= i < |events| && events[i].NewVote? ==> events[i].table == map[0 := Lone(key)]
    ensures Agrees(events, 0, Lone(key))
  {
  }

  lemma OneVoteEach(cfg: Config, v: F.Vote, w: F.Vote, snap: F.Snapshot)
    requires v.blockHeight != w.blockHeight
    ensures forall height: nat :: F.DoubleVoters(cfg.verify, [F.Fed(v, snap)], [F.Fed(w, snap)], height, snap) == {}
  {
  }

  lemma AfterNext(cfg: Config, g: Block, events: seq<Event>, e: Event)
    requires g.height == 0
    ensures Walkable(After(cfg, g, events).ledger.tree)
    ensures After(cfg, g, events + [e]) == Deliver(cfg, After(cfg, g, events), e)
  {
    assert (events + [e])[..|events|] == events;
  }

  /** The blocks of a chain above genesis, one after the other. */
  function Feed(bs: seq<Block>): (events: seq<Event>)
    requires bs != []
    ensures |events| == |bs| - 1
  {
    seq(|bs| - 1, i requires 0 <= i < |bs| - 1 => NewBlock(bs[i + 1], 1))
  }

  /** The node's tip is the last block of the chain, and of the two hashes it stores none outside the chain. */
  ghost predicate HasChain(n: Node, bs: seq<Block>, x: Hash)
    requires bs != []
  {
    var t, b := n.ledger.tree, bs[|bs| - 1];
    && Untouched(n) && t.tip == b.hash && b.hash in t.entries && t.entries[b.hash].block == b
    && (x in t.entries ==> x in HashesOf(bs))
  }

  lemma HasChainNext(n: Node, g: Block, bs: seq<Block>, b: Block, x: Hash)
    requires NodeInv(n, g) && Chained(bs) && HasChain(n, bs, x) && HasChain(n, bs, b.hash)
    requires b.height == |bs| && b.prevHash == bs[|bs| - 1].hash && b.hash !in HashesOf(bs)
    ensures HasChain(Deliver(OneEpoch(), n, NewBlock(b, 1)), bs + [b], x)
  {
    HashesNext(bs, b);
    BlockExtends(OneEpoch(), n, g, b, x);
  }

  lemma WithoutHead(bs: seq<Block>)
    requires Chained(bs) && |bs| > 1
    ensures var k := |bs| - 1;
            var init := bs[..k];
            && Chained(init) && init[0] == bs[0] && init[k - 1] == bs[k - 1] && bs == init + [bs[k]]
            && bs[k].hash !in HashesOf(init) && Feed(bs) == Feed(init) + [NewBlock(bs[k], 1)]
  {
    var k := |bs| - 1;
    assert bs[..k][k - 1] == bs[k - 1];
  }

  /** A node given a chain has its last block as tip and stores nothing else. */
  lemma {:induction false} ChainFed(bs: seq<Block>, x: Hash)
    requires Chained(bs)
    ensures HasChain(After(OneEpoch(), bs[0], Feed(bs)), bs, x)
    decreases |bs|
  {
    var k := |bs| - 1;
    if k == 0 {
      assert Feed(bs) == [];
      assert bs[0].hash in HashesOf(bs);
    } else {
      var init, b := bs[..k], bs[k];
      WithoutHead(bs);
      ChainFed(init, x);
      ChainFed(init, b.hash);
      AfterNext(OneEpoch(), bs[0], Feed(init), NewBlock(b, 1));
      HasChainNext(After(OneEpoch(), bs[0], Feed(init)), bs[0], init, b, x);
    }
  }

  lemma HashesNext(bs: seq<Block>, b: Block)
    ensures HashesOf(bs + [b]) == HashesOf(bs) + {b.hash}
  {
    var all := bs + [b];
    assert all[|bs|] == b && forall i :: 0 <= i < |bs| ==> all[i] == bs[i];
  }

  /** The chain, and the only validator's vote for its head. */
  function VotedChain(bs: seq<Block>, key: Hash): seq<Event>
    requires bs != []
  {
    Feed(bs) + [VoteOf(bs[|bs| - 1], key)]
  }

  /** A node given this finalizes the head, from that one vote. */
  lemma VotedChainFinalizes(bs: seq<Block>, key: Hash, x: Hash)
    requires Chained(bs) && |bs| > 1
    ensures var n, b := After(OneEpoch(), bs[0], VotedChain(bs, key)), bs[|bs| - 1];
            && n.ledger.tree.finalizedHash == b.hash && n.ledger.tree.finalizedHeight == |bs| - 1
            && n.fed == [F.Fed(VoteOf(b, key).vote, Lone(key))]
            && (x in n.ledger.tree.entries ==> x in HashesOf(bs))
  {
    var b := bs[|bs| - 1];
    ChainFed(bs, x);
    AfterNext(OneEpoch(), bs[0], Feed(bs), VoteOf(b, key));
    LoneVoteFinalizes(After(OneEpoch(), bs[0], Feed(bs)), bs[0], b, key, x);
  }

  lemma VotedChainRun(bs: seq<Block>, key: Hash)
    requires Chained(bs)
    ensures IsNodeRun(OneEpoch(), bs[0], States(OneEpoch(), bs[0], VotedChain(bs, key)), VotedChain(bs, key))
    ensures Agrees(VotedChain(bs, key), 0, Lone(key))
  {
    StatesAreRun(OneEpoch(), bs[0], VotedChain(bs, key));
    LoneAgrees(VotedChain(bs, key), key);
  }

  /** No hash above genesis is in both chains. */
  ghost predicate Disjoint(bs: seq<Block>, cs: seq<Block>)
  {
    && bs != [] && cs != [] && bs[0] == cs[0]
    && (forall i, j :: 0 < i < |bs| && 0 <= j < |cs| ==> bs[i].hash != cs[j].hash)
    && (forall i, j :: 0 <= i < |bs| && 0 < j < |cs| ==> bs[i].hash != cs[j].hash)
  }

  /**
  Any two chains that part at genesis and have different lengths: two nodes, each given one of them
  and the only validator's vote for its head, finalize the two heads, neither of which the other
  node stores, while nobody signed two votes at one height. The third that signed for both blocks
  leaves no evidence of double voting.
  */
  lemma ConflictWithoutDoubleVotes(bs: seq<Block>, cs: seq<Block>, key: Hash)
    requires Chained(bs) && Chained(cs) && Disjoint(bs, cs) && |bs| > 1 && |cs| > 1 && |bs| != |cs|
    ensures var n1, n2 := After(OneEpoch(), bs[0], VotedChain(bs, key)), After(OneEpoch(), bs[0], VotedChain(cs, key));
            && n1.ledger.tree.finalizedHash == bs[|bs| - 1].hash && n1.ledger.tree.finalizedHeight == |bs| - 1
            && n2.ledger.tree.finalizedHash == cs[|cs| - 1].hash && n2.ledger.tree.finalizedHeight == |cs| - 1
            && cs[|cs| - 1].hash !in n1.ledger.tree.entries && bs[|bs| - 1].hash !in n2.ledger.tree.entries
            && forall height: nat :: F.DoubleVoters(OneEpoch().verify, n1.fed, n2.fed, height, Lone(key)) == {}
  {
    VotedChainFinalizes(bs, key, cs[|cs| - 1].hash);
    VotedChainFinalizes(cs, key, bs[|bs| - 1].hash);
    OneVoteEach(OneEpoch(), VoteOf(bs[|bs| - 1], key).vote, VoteOf(cs[|cs| - 1], key).vote, Lone(key));
  }

  // ---------------------------------------------------------------------------
  // Exactly when a conflict can go without double votes

  /**
  Two runs, under one well-formed snapshot with stake, in which hashes stand for blocks, after which
  the nodes have finalized blocks at heights `m` and `n`, neither stored by the other, and nobody
  signed two votes at one height.
  */
  ghost predicate SilentConflict(
    cfg: Config, g: Block, content: Hash -> Block, snap: F.Snapshot, events1: seq<Event>, events2: seq<Event>, m: nat, n: nat)
  {
    && g.height == 0 && EventsDetermined(g, events1, content) && EventsDetermined(g, events2, content)
    && Agrees(events1, cfg.epochOf(m), snap) && Agrees(events2, cfg.epochOf(n), snap)
    && F.WellFormed(snap) && snap.totalStake > 0
    && var t1, t2 := After(cfg, g, events1).ledger.tree, After(cfg, g, events2).ledger.tree;
    && t1.finalizedHeight == m && t2.finalizedHeight == n
    && t1.finalizedHash !in t2.entries && t2.finalizedHash !in t1.entries
    && forall height: nat ::
         F.DoubleVoters(cfg.verify, After(cfg, g, events1).fed, After(cfg, g, events2).fed, height, snap) == {}
  }

  /** At one height it cannot: the third that signed for both is exposed. */
  lemma EqualHeightsAreExposed(
    cfg: Config, g: Block, content: Hash -> Block, snap: F.Snapshot, events1: seq<Event>, events2: seq<Event>, m: nat)
    requires m > 0
    ensures !SilentConflict(cfg, g, content, snap, events1, events2, m, m)
  {
    if SilentConflict(cfg, g, content, snap, events1, events2, m, m) {
      StatesAreRun(cfg, g, events1);
      StatesAreRun(cfg, g, events2);
      var t2 := After(cfg, g, events2).ledger.tree;
      assert t2.finalizedHash in t2.entries;
      ConflictingNodesExposeAThird(cfg, g, content, m, snap, States(cfg, g, events1), events1, |events1|,
                                   States(cfg, g, events2), events2, |events2|);
      F.WeightEmpty(snap.validators);
    }
  }

  /** Blocks whose hash spells out their chain: on side `s`, the block at height `i` has the hash of `i` bytes `s`. */
  function Spelled(h: Hash): Block
  {
    Block(h, if h == [] then [] else h[..|h| - 1], |h|, [])
  }

  function Side(s: bv8, length: nat): (bs: seq<Block>)
    ensures |bs| == length + 1
  {
    seq(length + 1, i requires 0 <= i <= length => Spelled(seq(i, _ => s)))
  }

  lemma SideChained(s: bv8, length: nat)
    ensures Chained(Side(s, length)) && Side(s, length)[0] == Spelled([])
  {
    var bs := Side(s, length);
    forall i | 0 < i < |bs|
      ensures bs[i].prevHash == bs[i - 1].hash
    { assert seq(i, _ => s)[..i - 1] == seq(i - 1, _ => s); }
    forall i, j | 0 <= i < j < |bs|
      ensures bs[i].hash != bs[j].hash
    { assert |bs[i].hash| == i && |bs[j].hash| == j; }
  }

  lemma SidesDisjoint(m: nat, n: nat)
    ensures Disjoint(Side(1, m), Side(2, n))
  {
    var bs, cs := Side(1, m), Side(2, n);
    SideChained(1, m);
    SideChained(2, n);
    forall i, j | 0 <= i < |bs| && 0 <= j < |cs| && (i > 0 || j > 0)
      ensures bs[i].hash != cs[j].hash
    {
      assert |bs[i].hash| == i && |cs[j].hash| == j;
      if i == j { assert bs[i].hash[0] == 1 && cs[j].hash[0] == 2; }
    }
  }

  lemma SideDetermined(s: bv8, length: nat, key: Hash)
    ensures EventsDetermined(Spelled([]), VotedChain(Side(s, length), key), Spelled)
  {
    var bs := Side(s, length);
    assert forall i :: 0 <= i < |bs| ==> bs[i] == Spelled(bs[i].hash);
  }

  /** At any two different heights it can. */
  lemma DifferentHeightsCanConflict(m: nat, n: nat)
    requires m > 0 && n > 0 && m != n
    ensures SilentConflict(OneEpoch(), Spelled([]), Spelled, Lone([]), VotedChain(Side(1, m), []), VotedChain(Side(2, n), []), m, n)
  {
    var bs, cs := Side(1, m), Side(2, n);
    SideChained(1, m);
    SideChained(2, n);
    SidesDisjoint(m, n);
    SideDetermined(1, m, []);
    SideDetermined(2, n, []);
    VotedChainRun(bs, []);
    VotedChainRun(cs, []);
    LoneWellFormed([]);
    ConflictWithoutDoubleVotes(bs, cs, []);
  }

  /** Two nodes can finalize conflicting blocks at heights `m` and `n` without any double vote if and only if the heights differ. */
  lemma SilentConflictIff(m: nat, n: nat)
    requires m > 0 && n > 0
    ensures (exists cfg, g, content, snap, events1, events2 :: SilentConflict(cfg, g, content, snap, events1, events2, m, n))
            <==> m != n
  {
    if m != n {
      DifferentHeightsCanConflict(m, n);
    } else {
      forall cfg, g, content, snap, events1, events2
        ensures !SilentConflict(cfg, g, content, snap, events1, events2, m, n)
      { EqualHeightsAreExposed(cfg, g, content, snap, events1, events2, m); }
    }
  }

  // ---------------------------------------------------------------------------
  // Restart

  /** Blocks linked one after the other from height 0, all different. */
  ghost predicate Chained(bs: seq<Block>)
  {
    && bs != []
    && (forall i :: 0 <= i < |bs| ==> bs[i].height == i)
    && (forall i :: 0 < i < |bs| ==> bs[i].prevHash == bs[i - 1].hash)
    && (forall i, j :: 0 <= i < j < |bs| ==> bs[i].hash != bs[j].hash)
  }

  /** `from_genesis` and an insert for every stored block, weighed by today's stakes. */
  ghost function Rebuild(bs: seq<Block>, stakeOf: Block -> nat): (s: Ledger)
    requires Chained(bs)
    ensures Inv(s, bs[0])
  {
    var n := |bs| - 1;
    if n == 0 then
      StartInv(bs[0]);
      Start(bs[0])
    else
      var s, op := Rebuild(bs[..n], stakeOf), Submit(bs[n], stakeOf(bs[n]));
      StepInv(bs[0], s, op, Apply(s, op));
      Apply(s, op)
  }

  ghost function HashesOf(bs: seq<Block>): set<Hash>
  {
    set i | 0 <= i < |bs| :: bs[i].hash
  }

  /** The tree stores exactly the chain, with finality at genesis. */
  ghost predicate Stores(t: Tree, bs: seq<Block>)
    requires bs != []
  {
    && t.entries.Keys == HashesOf(bs) && t.finalizedHeight == 0 && t.finalizedHash == bs[0].hash
    && (forall i :: 0 <= i < |bs| ==> bs[i].hash in t.entries && t.entries[bs[i].hash].block == bs[i])
  }

  lemma StoresNext(t: Tree, bs: seq<Block>, b: Block, stake: nat)
    requires Walkable(t) && Chained(bs) && Stores(t, bs) && b.height == |bs| && b.prevHash == bs[|bs| - 1].hash
    requires b.hash !in HashesOf(bs)
    ensures Acceptable(t, b) && Stores(Insert(t, b, stake), bs + [b])
  {
    var all := bs + [b];
    assert Acceptable(t, b);
    assert HashesOf(all) == HashesOf(bs) + {b.hash} by {
      assert all[|bs|] == b && forall i :: 0 <= i < |bs| ==> all[i] == bs[i];
    }
  }

  /** The rebuilt tree stores exactly the chain, with finality at genesis. */
  lemma {:induction false} RebuildStoresChain(bs: seq<Block>, stakeOf: Block -> nat)
    requires Chained(bs)
    ensures Stores(Rebuild(bs, stakeOf).tree, bs)
  {
    var n := |bs| - 1;
    if n > 0 {
      var init := bs[..n];
      assert init[n - 1] == bs[n - 1] && bs == init + [bs[n]];
      RebuildStoresChain(init, stakeOf);
      StoresNext(Rebuild(init, stakeOf).tree, init, bs[n], stakeOf(bs[n]));
    }
  }

  lemma CanonicalChained(t: Tree, g: Block)
    requires Shape(t, g) && t.tip in t.entries
    ensures Chained(CanonicalChain(t)) && CanonicalChain(t)[0] == g
    ensures HashesOf(CanonicalChain(t)) <= t.entries.Keys
    ensures |CanonicalChain(t)| > t.finalizedHeight && CanonicalChain(t)[t.finalizedHeight].hash == t.finalizedHash
  {
    var e, p, bs := t.entries, Path(t.entries, t.tip), CanonicalChain(t);
    forall i | 0 <= i < |bs|
      ensures p[i] in e && bs[i] == e[p[i]].block && bs[i].height == i && bs[i].hash == p[i]
      ensures i > 0 ==> bs[i].prevHash == p[i - 1]
    {
      PathAt(e, t.tip, i);
      assert Linked(e, p[i]);
      if i > 0 {
        assert p[..i + 1] == Path(e, e[p[i]].block.prevHash) + [p[i]];
        assert p[i - 1] == p[..i + 1][i - 1];
      }
    }
    AncestorAt(e, t.finalizedHash, t.tip);
  }

  /** What a node is after a restart, its whole chain having been stored. */
  ghost function Restart(n: Node, g: Block, stakeOf: Block -> nat): Node
    requires NodeInv(n, g)
  {
    CanonicalChained(n.ledger.tree, g);
    var chain := CanonicalChain(n.ledger.tree);
    var height := n.tracker.finalizedHeight;
    Node(Rebuild(chain, stakeOf), F.WithFinalized(height, chain[height].hash), [])
  }

  /** After a restart the tracker is where it was and the tree's finality is back at genesis: they agree, and the node's invariant holds, if and only if nothing had been finalized. */
  lemma RestartAgreesIff(n: Node, g: Block, stakeOf: Block -> nat)
    requires NodeInv(n, g)
    ensures var r := Restart(n, g, stakeOf);
            && r.tracker.finalizedHeight == n.ledger.tree.finalizedHeight
            && r.tracker.finalizedHash == n.ledger.tree.finalizedHash
            && r.ledger.tree.finalizedHeight == 0 && r.ledger.tree.finalizedHash == g.hash
            && (NodeInv(r, g) <==> n.ledger.tree.finalizedHeight == 0)
  {
    CanonicalChained(n.ledger.tree, g);
    RebuildStoresChain(CanonicalChain(n.ledger.tree), stakeOf);
  }

  /** In any tree of the invariant, an insert moves the tip off the descendants of a stored block if and only if the new block is acceptable, outweighs the tip and does not build on that block. */
  lemma InsertLeavesBlockIff(s: Ledger, g: Block, f: Hash, b: Block, stake: nat)
    requires Inv(s, g) && f in s.tree.entries && Ancestor(s.tree.entries, f, s.tree.tip)
    ensures var t, t' := s.tree, Insert(s.tree, b, stake);
            && Rooted(t'.entries)
            && (!Ancestor(t'.entries, f, t'.tip) <==>
                && Acceptable(t, b)
                && t.entries[b.prevHash].weight + stake > t.entries[t.tip].weight
                && !Ancestor(t.entries, f, b.prevHash))
  {
    var t, t' := s.tree, Insert(s.tree, b, stake);
    if Acceptable(t, b) {
      AddEntryRooted(t.entries, b, stake);
      AncestorStep(t'.entries, f, b.hash);
      PathAgrees(t.entries, t'.entries, b.prevHash);
      PathAgrees(t.entries, t'.entries, t.tip);
    }
  }

  /** A block on the canonical block at height `k`, below the finalized one, heavy enough to take the tip of the restarted tree. */
  ghost predicate OldFork(n: Node, g: Block, stakeOf: Block -> nat, k: nat, b: Block, stake: nat)
    requires NodeInv(n, g)
  {
    var chain, t := CanonicalChain(n.ledger.tree), Restart(n, g, stakeOf).ledger.tree;
    && k < n.ledger.tree.finalizedHeight && k < |chain|
    && b.prevHash == chain[k].hash && b.height == k + 1 && b.hash !in n.ledger.tree.entries
    && b.prevHash in t.entries && t.tip in t.entries
    && t.entries[b.prevHash].weight + stake > t.entries[t.tip].weight
  }

  /** In the restarted tree, with the fork inserted, no canonical block above the fork point is an ancestor of the tip. */
  lemma OldForkLeavesChain(n: Node, g: Block, stakeOf: Block -> nat, k: nat, b: Block, stake: nat, i: nat)
    requires NodeInv(n, g) && OldFork(n, g, stakeOf, k, b, stake) && k < i < |CanonicalChain(n.ledger.tree)|
    ensures var x, t' := CanonicalChain(n.ledger.tree)[i].hash, Insert(Restart(n, g, stakeOf).ledger.tree, b, stake);
            Rooted(t'.entries) && t'.tip == b.hash && x in t'.entries && !Ancestor(t'.entries, x, t'.tip)
  {
    var chain := CanonicalChain(n.ledger.tree);
    CanonicalChained(n.ledger.tree, g);
    RebuildStoresChain(chain, stakeOf);
    ForkOff(Rebuild(chain, stakeOf), chain, k, b, stake, i);
  }

  lemma ForkOff(s: Ledger, chain: seq<Block>, k: nat, b: Block, stake: nat, i: nat)
    requires Chained(chain) && Inv(s, chain[0]) && Stores(s.tree, chain) && k < i < |chain|
    requires b.prevHash == chain[k].hash && b.height == k + 1 && b.hash !in s.tree.entries
    requires s.tree.entries[b.prevHash].weight + stake > s.tree.entries[s.tree.tip].weight
    ensures var t' := Insert(s.tree, b, stake);
            Rooted(t'.entries) && t'.tip == b.hash && chain[i].hash in t'.entries && !Ancestor(t'.entries, chain[i].hash, b.hash)
  {
    var t, x := s.tree, chain[i].hash;
    assert Acceptable(t, b);
    AddEntryRooted(t.entries, b, stake);
    var t' := Insert(t, b, stake);
    AncestorStep(t'.entries, x, b.hash);
    PathAgrees(t.entries, t'.entries, b.prevHash);
    if Ancestor(t.entries, x, b.prevHash) {
      AncestorAt(t.entries, x, b.prevHash);
    }
  }

  /**
  Every node that has finalized something: a heavy enough block on any canonical block below the
  finalized one, which the node refuses, moves the tip off the finalized block once it has restarted.
  */
  lemma RestartAcceptsOldFork(n: Node, g: Block, stakeOf: Block -> nat, k: nat, b: Block, stake: nat)
    requires NodeInv(n, g) && OldFork(n, g, stakeOf, k, b, stake)
    ensures !Acceptable(n.ledger.tree, b)
    ensures var t' := Insert(Restart(n, g, stakeOf).ledger.tree, b, stake);
            && Rooted(t'.entries) && t'.tip == b.hash && n.ledger.tree.finalizedHash in t'.entries
            && !Ancestor(t'.entries, n.ledger.tree.finalizedHash, t'.tip)
  {
    CanonicalChained(n.ledger.tree, g);
    OldForkLeavesChain(n, g, stakeOf, k, b, stake, n.ledger.tree.finalizedHeight);
  }

  /** From then on finality stops: no vote for one of the node's own blocks above the fork point is passed on to the tracker. */
  lemma RestartStopsFinality(
    cfg: Config, n: Node, g: Block, stakeOf: Block -> nat, k: nat, b: Block, stake: nat, v: F.Vote, table: Table)
    requires NodeInv(n, g) && OldFork(n, g, stakeOf, k, b, stake)
    requires exists i :: k < i < |CanonicalChain(n.ledger.tree)| && CanonicalChain(n.ledger.tree)[i].hash == v.blockHash
    ensures var t' := Insert(Restart(n, g, stakeOf).ledger.tree, b, stake);
            Walkable(t') && !Eligible(cfg, t', v, table)
  {
    var i :| k < i < |CanonicalChain(n.ledger.tree)| && CanonicalChain(n.ledger.tree)[i].hash == v.blockHash;
    OldForkLeavesChain(n, g, stakeOf, k, b, stake, i);
  }

  const MAX_REORG_DEPTH: nat := 64

  /** The first test of `add_block_with_fork_choice`: on a chain of this height, a block of that height may reach the tree. */
  predicate DepthAllows(chainHeight: nat, height: nat)
  {
    !(chainHeight > MAX_REORG_DEPTH && height < chainHeight - MAX_REORG_DEPTH)
  }

  /** A block at or below the finalized height may reach the tree if and only if the finalized block is at most 64 below the head. */
  lemma OldForkReachesTreeIff(chainHeight: nat, finalizedHeight: nat)
    requires 0 < finalizedHeight <= chainHeight
    ensures (exists height :: 0 < height <= finalizedHeight && DepthAllows(chainHeight, height))
            <==> chainHeight <= finalizedHeight + MAX_REORG_DEPTH
  {
    if chainHeight <= finalizedHeight + MAX_REORG_DEPTH {
      assert DepthAllows(chainHeight, finalizedHeight);
    }
  }
}
