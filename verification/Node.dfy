/**
How the chain drives the block tree and the finality tracker together
(`src/core/chain/finality.rs`): a vote reaches the tracker only for a stored canonical block at
its own height, and a finalization is handed to the tree. Nothing is assumed about the calls to
`set_finalized`: every one a node makes is admissible. Nor is anything assumed about the table of
epoch snapshots, which the chain rebuilds as it goes: each vote comes with the table of its moment.
*/
module Node {
  import opened Common
  import opened ForkTree
  import F = Finality
  import Store = BlockTreeStore

  /** Signature checking and the epoch of a height. */
  datatype Config = Config(verify: F.Vote -> bool, epochOf: nat -> nat)

  /** The validator snapshot of each epoch a node knows at some moment. */
  type Table = map<nat, F.Snapshot>

  /** A node, with the votes its tracker was given so far and the snapshots they were counted under. */
  datatype Node = Node(ledger: Ledger, tracker: F.Tracker, fed: seq<F.Fed>)

  datatype Event = NewBlock(block: Block, stake: nat) | NewVote(vote: F.Vote, table: Table)

  /** The tests `add_finality_vote` makes before it consults the tracker. */
  ghost predicate Eligible(cfg: Config, t: Tree, v: F.Vote, table: Table)
    requires Walkable(t)
  {
    && v.blockHash in t.entries
    && t.entries[v.blockHash].block.height == v.blockHeight
    && v.epoch == cfg.epochOf(v.blockHeight)
    && Ancestor(t.entries, v.blockHash, t.tip)
    && v.epoch in table
  }

  ghost function Deliver(cfg: Config, n: Node, e: Event): Node
    requires Walkable(n.ledger.tree)
  {
    match e
    case NewBlock(b, stake) => n.(ledger := Apply(n.ledger, Submit(b, stake)))
    case NewVote(v, table) =>
      if !Eligible(cfg, n.ledger.tree, v, table) then n
      else
        var (tracker, r) := F.AddVote(cfg.verify, n.tracker, v, table[v.epoch]);
        var tree := if r.Some? then Finalize(n.ledger.tree, r.value.hash, r.value.height) else n.ledger.tree;
        Node(n.ledger.(tree := tree), tracker, n.fed + [F.Fed(v, table[v.epoch])])
  }

  /** The chain object of the source, holding the tree and the tracker. */
  class Blockchain {
    const blockTree: Store.BlockTree
    const finalityTracker: F.FinalityTracker
    ghost var fed: seq<F.Fed>

    ghost function View(): Node
      reads this, blockTree, finalityTracker
    {
      Node(Ledger(blockTree.View(), blockTree.stakes), finalityTracker.View(), fed)
    }

    ghost predicate Valid()
      reads this, blockTree, finalityTracker
    {
      NodeInv(View(), blockTree.genesis)
    }

    constructor (g: Block)
      requires g.height == 0
      ensures Valid() && View() == StartNode(g) && blockTree.genesis == g
      ensures fresh(blockTree) && fresh(finalityTracker)
    {
      blockTree := new Store.BlockTree(g);
      finalityTracker := new F.FinalityTracker(0, []);
      fed := [];
    }

    /** `add_finality_vote`. */
    method AddFinalityVote(cfg: Config, table: Table, vote: F.Vote) returns (r: Option<F.Finalized>)
      requires Valid()
      modifies this, blockTree, finalityTracker
      ensures Valid()
      ensures Walkable(old(View()).ledger.tree) && View() == Deliver(cfg, old(View()), NewVote(vote, table))
      ensures r.Some? ==> finalityTracker.finalizedHash == vote.blockHash
    {
      if vote.blockHash !in blockTree.entries {
        return None;
      }
      if blockTree.entries[vote.blockHash].block.height != vote.blockHeight {
        return None;
      }
      var epoch := cfg.epochOf(vote.blockHeight);
      if vote.epoch != epoch {
        return None;
      }
      var canonical := blockTree.IsDescendantOf(blockTree.canonicalTip, vote.blockHash);
      if !canonical || epoch !in table {
        return None;
      }
      ghost var before := View();
      VoteInv(cfg, before, blockTree.genesis, vote, table);
      fed := fed + [F.Fed(vote, table[epoch])];
      r := finalityTracker.Add(cfg.verify, vote, table[epoch]);
      if r.Some? {
        blockTree.SetFinalized(r.value.hash, r.value.height);
      }
    }
  }

  // ---------------------------------------------------------------------------
  // Invariant

  ghost predicate NodeInv(n: Node, g: Block)
  {
    Inv(n.ledger, g) && n.tracker.finalizedHeight == n.ledger.tree.finalizedHeight
  }

  ghost function StartNode(g: Block): Node
  {
    Node(Start(g), F.WithFinalized(0, []), [])
  }

  /** A finalization the tracker reports is one `set_finalized` may be given. */
  lemma ReportIsFinalizable(cfg: Config, n: Node, g: Block, v: F.Vote, table: Table)
    requires NodeInv(n, g) && Eligible(cfg, n.ledger.tree, v, table)
    ensures var r := F.AddVote(cfg.verify, n.tracker, v, table[v.epoch]).1;
            r.Some? ==> r.value == F.Finalized(v.blockHash, v.blockHeight) && Finalizable(n.ledger.tree, v.blockHash)
  {
  }

  lemma VoteInv(cfg: Config, n: Node, g: Block, v: F.Vote, table: Table)
    requires NodeInv(n, g)
    ensures NodeInv(Deliver(cfg, n, NewVote(v, table)), g)
    ensures Eligible(cfg, n.ledger.tree, v, table) && F.AddVote(cfg.verify, n.tracker, v, table[v.epoch]).1.Some? ==>
              Finalizable(n.ledger.tree, v.blockHash)
  {
    if Eligible(cfg, n.ledger.tree, v, table) {
      ReportIsFinalizable(cfg, n, g, v, table);
      if F.AddVote(cfg.verify, n.tracker, v, table[v.epoch]).1.Some? {
        FinalizeInv(n.ledger, g, v.blockHash);
      }
    }
  }

  /** Seen from the tree, delivering an event is an allowed operation or nothing at all. */
  lemma DeliverIsStep(cfg: Config, n: Node, g: Block, e: Event)
    requires NodeInv(n, g)
    ensures var op := if e.NewBlock? then Submit(e.block, e.stake) else Finalise(e.vote.blockHash);
            var l := Deliver(cfg, n, e).ledger;
            l == n.ledger || Step(n.ledger, op, l)
  {
    if e.NewVote? && Eligible(cfg, n.ledger.tree, e.vote, e.table) {
      ReportIsFinalizable(cfg, n, g, e.vote, e.table);
    }
  }

  lemma DeliverInv(cfg: Config, n: Node, g: Block, e: Event)
    requires NodeInv(n, g)
    ensures NodeInv(Deliver(cfg, n, e), g)
  {
    match e
    case NewBlock(b, stake) => StepInv(g, n.ledger, Submit(b, stake), Deliver(cfg, n, e).ledger);
    case NewVote(v, table) => VoteInv(cfg, n, g, v, table);
  }

  lemma DeliverPreserves(cfg: Config, n: Node, g: Block, e: Event)
    requires NodeInv(n, g) && NodeInv(Deliver(cfg, n, e), g)
    ensures Preserves(n.ledger.tree, Deliver(cfg, n, e).ledger.tree)
  {
    DeliverIsStep(cfg, n, g, e);
    var op := if e.NewBlock? then Submit(e.block, e.stake) else Finalise(e.vote.blockHash);
    if Deliver(cfg, n, e).ledger == n.ledger {
      PreservesReflexive(n.ledger.tree, g);
    } else {
      StepPreserves(g, n.ledger, op, Deliver(cfg, n, e).ledger);
    }
  }

  // ---------------------------------------------------------------------------
  // Runs

  ghost predicate DeliveredAt(cfg: Config, states: seq<Node>, events: seq<Event>, i: nat)
    requires i < |events| < |states|
  {
    Walkable(states[i].ledger.tree) && states[i + 1] == Deliver(cfg, states[i], events[i])
  }

  /** `states` is what a node goes through when it is given `events`, starting from genesis. */
  ghost predicate IsNodeRun(cfg: Config, g: Block, states: seq<Node>, events: seq<Event>)
  {
    && g.height == 0
    && |states| == |events| + 1
    && states[0] == StartNode(g)
    && (forall i :: 0 <= i < |events| ==> DeliveredAt(cfg, states, events, i))
  }

  lemma {:induction false} NodeRunInv(cfg: Config, g: Block, states: seq<Node>, events: seq<Event>, i: nat)
    requires IsNodeRun(cfg, g, states, events) && i <= |events|
    ensures NodeInv(states[i], g)
  {
    if i == 0 {
      StartInv(g);
    } else {
      NodeRunInv(cfg, g, states, events, i - 1);
      assert DeliveredAt(cfg, states, events, i - 1);
      DeliverInv(cfg, states[i - 1], g, events[i - 1]);
    }
  }

  lemma NodePreservesNext(cfg: Config, g: Block, states: seq<Node>, events: seq<Event>, t: Tree, j: nat)
    requires IsNodeRun(cfg, g, states, events) && j < |events|
    requires Rooted(t.entries) && NodeInv(states[j], g) && Preserves(t, states[j].ledger.tree)
    ensures NodeInv(states[j + 1], g) && Preserves(t, states[j + 1].ledger.tree)
  {
    NodeRunInv(cfg, g, states, events, j + 1);
    assert DeliveredAt(cfg, states, events, j);
    DeliverPreserves(cfg, states[j], g, events[j]);
    PreservesTransitive(t, states[j].ledger.tree, states[j + 1].ledger.tree);
  }

  lemma {:induction false} NodeRunPreserves(
    cfg: Config, g: Block, states: seq<Node>, events: seq<Event>, i: nat, j: nat)
    requires IsNodeRun(cfg, g, states, events) && i <= j <= |events|
    ensures NodeInv(states[i], g) && NodeInv(states[j], g)
    ensures Preserves(states[i].ledger.tree, states[j].ledger.tree)
    decreases j
  {
    NodeRunInv(cfg, g, states, events, i);
    if i == j {
      PreservesReflexive(states[i].ledger.tree, g);
    } else {
      NodeRunPreserves(cfg, g, states, events, i, j - 1);
      NodePreservesNext(cfg, g, states, events, states[i].ledger.tree, j - 1);
    }
  }

  /**
  A node never reverts what it finalized: for any blocks and any votes, forged ones included, in
  any order and under any snapshot tables, the canonical chain up to a finalized height is the same at every later moment.
  */
  lemma NodeNeverRevertsFinality(cfg: Config, g: Block, states: seq<Node>, events: seq<Event>, i: nat, j: nat)
    requires IsNodeRun(cfg, g, states, events) && i <= j <= |events|
    ensures var t, t' := states[i].ledger.tree, states[j].ledger.tree;
            && Walkable(t) && Walkable(t')
            && Ancestor(t'.entries, t.finalizedHash, t'.tip)
            && |CanonicalChain(t)| > t.finalizedHeight && |CanonicalChain(t')| > t.finalizedHeight
            && CanonicalChain(t')[..t.finalizedHeight + 1] == CanonicalChain(t)[..t.finalizedHeight + 1]
  {
    NodeRunPreserves(cfg, g, states, events, i, j);
    PreservesChain(states[i].ledger.tree, states[j].ledger.tree, g);
  }

  // ---------------------------------------------------------------------------
  // Two nodes

  /** A hash stands for one block. */
  ghost predicate EventsDetermined(g: Block, events: seq<Event>, content: Hash -> Block)
  {
    && content(g.hash) == g
    && (forall i :: 0 <= i < |events| && events[i].NewBlock? ==> events[i].block == content(events[i].block.hash))
  }

  /** Whenever a vote arrives, the node has this snapshot for the epoch, or none. */
  ghost predicate Agrees(events: seq<Event>, epoch: nat, snap: F.Snapshot)
  {
    forall i :: 0 <= i < |events| && events[i].NewVote? && epoch in events[i].table ==> events[i].table[epoch] == snap
  }

  /** A counted vote carries its block's height, and is counted under `snap` when that height is in `epoch`. */
  ghost predicate FedOk(cfg: Config, f: F.Fed, content: Hash -> Block, epoch: nat, snap: F.Snapshot)
  {
    && f.vote.blockHeight == content(f.vote.blockHash).height
    && (cfg.epochOf(f.vote.blockHeight) == epoch ==> f.snap == snap)
  }

  /** The stored blocks, the votes counted so far and the state of the tracker all fit `content`. */
  ghost predicate Explained(cfg: Config, n: Node, content: Hash -> Block, epoch: nat, snap: F.Snapshot)
  {
    && Consistent(n.ledger.tree.entries, content)
    && (forall i :: 0 <= i < |n.fed| ==> FedOk(cfg, n.fed[i], content, epoch, snap))
    && n.tracker == F.Run(cfg.verify, F.WithFinalized(0, []), n.fed)
    && (n.tracker.finalizedHeight > 0 ==> n.tracker.finalizedHash == n.ledger.tree.finalizedHash)
  }

  lemma DeliverExplained(cfg: Config, n: Node, e: Event, content: Hash -> Block, epoch: nat, snap: F.Snapshot)
    requires Walkable(n.ledger.tree) && Explained(cfg, n, content, epoch, snap)
    requires e.NewBlock? ==> e.block == content(e.block.hash)
    requires e.NewVote? && epoch in e.table ==> e.table[epoch] == snap
    ensures Explained(cfg, Deliver(cfg, n, e), content, epoch, snap)
  {
    if e.NewVote? && Eligible(cfg, n.ledger.tree, e.vote, e.table) {
      var fed := n.fed + [F.Fed(e.vote, e.table[e.vote.epoch])];
      assert fed[..|fed| - 1] == n.fed;
      assert FedOk(cfg, fed[|fed| - 1], content, epoch, snap);
    }
  }

  lemma {:induction false} NodeRunExplained(
    cfg: Config, g: Block, states: seq<Node>, events: seq<Event>, content: Hash -> Block, epoch: nat, snap: F.Snapshot, i: nat)
    requires IsNodeRun(cfg, g, states, events) && i <= |events|
    requires EventsDetermined(g, events, content) && Agrees(events, epoch, snap)
    ensures Explained(cfg, states[i], content, epoch, snap)
  {
    if i > 0 {
      NodeRunExplained(cfg, g, states, events, content, epoch, snap, i - 1);
      ExplainedNext(cfg, g, states, events, content, epoch, snap, i - 1);
    }
  }

  lemma ExplainedNext(
    cfg: Config, g: Block, states: seq<Node>, events: seq<Event>, content: Hash -> Block, epoch: nat, snap: F.Snapshot, j: nat)
    requires IsNodeRun(cfg, g, states, events) && j < |events|
    requires EventsDetermined(g, events, content) && Agrees(events, epoch, snap)
    requires Explained(cfg, states[j], content, epoch, snap)
    ensures Explained(cfg, states[j + 1], content, epoch, snap)
  {
    var n, e := states[j], events[j];
    assert DeliveredAt(cfg, states, events, j);
    DeliverExplained(cfg, n, e, content, epoch, snap);
  }

  /** A node's finalized block was reported by its tracker, from votes that all carry its height and count under its epoch's snapshot. */
  lemma FinalizedIsReported(
    cfg: Config, g: Block, states: seq<Node>, events: seq<Event>, content: Hash -> Block, snap: F.Snapshot, i: nat)
    returns (k: nat)
    requires IsNodeRun(cfg, g, states, events) && i <= |events| && EventsDetermined(g, events, content)
    requires var t := states[i].ledger.tree; t.finalizedHeight > 0 && Agrees(events, cfg.epochOf(t.finalizedHeight), snap)
    ensures var n := states[i];
            var hash, height := n.ledger.tree.finalizedHash, n.ledger.tree.finalizedHeight;
            && k < |n.fed| && F.Reply(cfg.verify, F.WithFinalized(0, []), n.fed, k) == Some(F.Finalized(hash, height))
            && F.OneSnapshot(n.fed, hash, snap) && F.VotesCarryHeight(n.fed, hash, height)
  {
    var n, epoch := states[i], cfg.epochOf(states[i].ledger.tree.finalizedHeight);
    var hash, height := n.ledger.tree.finalizedHash, n.ledger.tree.finalizedHeight;
    NodeRunInv(cfg, g, states, events, i);
    NodeRunExplained(cfg, g, states, events, content, epoch, snap, i);
    k := F.FinalizedWasReported(cfg.verify, F.WithFinalized(0, []), n.fed);
    assert content(hash).height == height;
    forall j | 0 <= j < |n.fed| && n.fed[j].vote.blockHash == hash
      ensures n.fed[j].snap == snap && n.fed[j].vote.blockHeight == height
    { assert FedOk(cfg, n.fed[j], content, epoch, snap); }
  }

  /**
  Accountable safety for whole nodes, at any two heights of one epoch: whatever two nodes were
  given, validators holding at least a third of that epoch's stake signed votes for both nodes'
  finalized blocks. The nodes need to agree on that epoch's snapshot only.
  */
  lemma FinalizedBlocksShareAThird(
    cfg: Config, g: Block, content: Hash -> Block, snap: F.Snapshot,
    states1: seq<Node>, events1: seq<Event>, i: nat, states2: seq<Node>, events2: seq<Event>, j: nat)
    requires IsNodeRun(cfg, g, states1, events1) && i <= |events1| && EventsDetermined(g, events1, content)
    requires IsNodeRun(cfg, g, states2, events2) && j <= |events2| && EventsDetermined(g, events2, content)
    requires var t1, t2 := states1[i].ledger.tree, states2[j].ledger.tree;
             && t1.finalizedHeight > 0 && t2.finalizedHeight > 0
             && Agrees(events1, cfg.epochOf(t1.finalizedHeight), snap)
             && Agrees(events2, cfg.epochOf(t2.finalizedHeight), snap)
    requires F.WellFormed(snap)
    ensures var n1, n2 := states1[i], states2[j];
            3 * F.Weight(snap.validators, F.Signers(cfg.verify, n1.fed, n1.ledger.tree.finalizedHash, snap)
                                          * F.Signers(cfg.verify, n2.fed, n2.ledger.tree.finalizedHash, snap))
            >= snap.totalStake
  {
    var n1, n2 := states1[i], states2[j];
    var a := FinalizedIsReported(cfg, g, states1, events1, content, snap, i);
    var b := FinalizedIsReported(cfg, g, states2, events2, content, snap, j);
    F.AccountableSafety(
      cfg.verify, snap,
      F.WithFinalized(0, []), n1.fed, a, F.Finalized(n1.ledger.tree.finalizedHash, n1.ledger.tree.finalizedHeight),
      F.WithFinalized(0, []), n2.fed, b, F.Finalized(n2.ledger.tree.finalizedHash, n2.ledger.tree.finalizedHeight));
  }

  /**
  At one height that third is exposed: if two nodes, whatever blocks and votes each was given, have
  finalized different blocks at one height, then validators holding at least a third of that
  epoch's stake signed votes for two different blocks at that height.
  */
  lemma ConflictingNodesExposeAThird(
    cfg: Config, g: Block, content: Hash -> Block, height: nat, snap: F.Snapshot,
    states1: seq<Node>, events1: seq<Event>, i: nat, states2: seq<Node>, events2: seq<Event>, j: nat)
    requires IsNodeRun(cfg, g, states1, events1) && i <= |events1| && EventsDetermined(g, events1, content)
    requires IsNodeRun(cfg, g, states2, events2) && j <= |events2| && EventsDetermined(g, events2, content)
    requires var t1, t2 := states1[i].ledger.tree, states2[j].ledger.tree;
             t1.finalizedHeight == t2.finalizedHeight == height > 0 && t1.finalizedHash != t2.finalizedHash
    requires Agrees(events1, cfg.epochOf(height), snap) && Agrees(events2, cfg.epochOf(height), snap) && F.WellFormed(snap)
    ensures 3 * F.Weight(snap.validators, F.DoubleVoters(cfg.verify, states1[i].fed, states2[j].fed, height, snap))
            >= snap.totalStake
  {
    var n1, n2 := states1[i], states2[j];
    var a := FinalizedIsReported(cfg, g, states1, events1, content, snap, i);
    var b := FinalizedIsReported(cfg, g, states2, events2, content, snap, j);
    F.ConflictNeedsDoubleVotes(cfg.verify, snap, height,
                               F.WithFinalized(0, []), n1.fed, a, n1.ledger.tree.finalizedHash,
                               F.WithFinalized(0, []), n2.fed, b, n2.ledger.tree.finalizedHash);
  }
}
