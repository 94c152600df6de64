/**
Exactly which votes a node counts and when it finalizes (`src/core/chain/finality.rs`), in terms of
its canonical chain and the votes it was given.
*/
module NodeExact {
  import opened Common
  import opened ForkTree
  import opened Node
  import F = Finality
  import X = FinalityExact

  /** The vote names the canonical block at its own height and that height's epoch, whose snapshot the node has. */
  ghost predicate NamesCanonical(cfg: Config, t: Tree, v: F.Vote, table: Table)
    requires Walkable(t)
  {
    && v.blockHeight < |CanonicalChain(t)| && CanonicalChain(t)[v.blockHeight].hash == v.blockHash
    && v.epoch == cfg.epochOf(v.blockHeight) && v.epoch in table
  }

  /** The canonical chain holds a stored block exactly at the block's height. */
  lemma CanonicalAt(t: Tree, hash: Hash, height: nat)
    requires Walkable(t)
    ensures (height < |CanonicalChain(t)| && CanonicalChain(t)[height].hash == hash) <==>
            (hash in t.entries && t.entries[hash].block.height == height && Ancestor(t.entries, hash, t.tip))
  {
    var e, p := t.entries, Path(t.entries, t.tip);
    if height < |p| {
      PathAt(e, t.tip, height);
      assert Linked(e, p[height]);
    }
    if Ancestor(e, hash, t.tip) { AncestorAt(e, hash, t.tip); }
  }

  /** A vote reaches the tracker, under the snapshot of its epoch, if and only if it names a canonical block so; otherwise nothing changes. */
  lemma VoteIsFedIff(cfg: Config, n: Node, v: F.Vote, table: Table)
    requires Walkable(n.ledger.tree)
    ensures var n' := Deliver(cfg, n, NewVote(v, table));
            if NamesCanonical(cfg, n.ledger.tree, v, table) then
              n'.fed == n.fed + [F.Fed(v, table[v.epoch])]
              && n'.tracker == F.AddVote(cfg.verify, n.tracker, v, table[v.epoch]).0
            else n' == n
  {
    CanonicalAt(n.ledger.tree, v.blockHash, v.blockHeight);
  }

  /** Every table agrees with one snapshot per height. */
  ghost predicate TablesFit(cfg: Config, snapAt: nat -> F.Snapshot, events: seq<Event>)
  {
    && (forall h: nat :: F.WellFormed(snapAt(h)))
    && (forall h: nat :: Agrees(events, cfg.epochOf(h), snapAt(h)))
  }

  lemma FedIsRegular(
    cfg: Config, g: Block, states: seq<Node>, events: seq<Event>, content: Hash -> Block, snapAt: nat -> F.Snapshot, i: nat)
    requires IsNodeRun(cfg, g, states, events) && i <= |events|
    requires EventsDetermined(g, events, content) && TablesFit(cfg, snapAt, events)
    ensures X.Regular(cfg.verify, snapAt, (h: Hash) => content(h).height, states[i].fed)
    ensures states[i].tracker == F.Run(cfg.verify, F.WithFinalized(0, []), states[i].fed)
  {
    var fed := states[i].fed;
    assert Agrees(events, cfg.epochOf(0), snapAt(0));
    NodeRunExplained(cfg, g, states, events, content, cfg.epochOf(0), snapAt(0), i);
    forall j | 0 <= j < |fed|
      ensures fed[j].snap == snapAt(fed[j].vote.blockHeight) && fed[j].vote.blockHeight == content(fed[j].vote.blockHash).height
    {
      var h := fed[j].vote.blockHeight;
      assert Agrees(events, cfg.epochOf(h), snapAt(h));
      NodeRunExplained(cfg, g, states, events, content, cfg.epochOf(h), snapAt(h), i);
      assert FedOk(cfg, fed[j], content, cfg.epochOf(h), snapAt(h));
    }
  }

  /** What a vote does to the finalized block of the tree, through the tracker's answer. */
  lemma VoteFinalizes(cfg: Config, n: Node, g: Block, v: F.Vote, table: Table)
    requires NodeInv(n, g) && NamesCanonical(cfg, n.ledger.tree, v, table)
    ensures var t, t' := n.ledger.tree, Deliver(cfg, n, NewVote(v, table)).ledger.tree;
            var r := F.AddVote(cfg.verify, n.tracker, v, table[v.epoch]).1;
            if r.Some? then t'.finalizedHash == v.blockHash && t'.finalizedHeight == v.blockHeight > t.finalizedHeight
            else t' == t
  {
    CanonicalAt(n.ledger.tree, v.blockHash, v.blockHeight);
  }

  /**
  In every run of a node, a vote finalizes a block if and only if it names the canonical block at
  its height and epoch, and among the votes counted so far it is the one that completes two thirds
  for that block, with none at its height or above having had them before. It then finalizes that
  block, and in every other case the tree stays as it was.
  */
  lemma NodeFinalizesExactly(
    cfg: Config, g: Block, states: seq<Node>, events: seq<Event>, content: Hash -> Block, snapAt: nat -> F.Snapshot, i: nat)
    requires IsNodeRun(cfg, g, states, events) && i < |events| && events[i].NewVote?
    requires EventsDetermined(g, events, content) && TablesFit(cfg, snapAt, events)
    ensures Walkable(states[i].ledger.tree)
    ensures var v, t, t' := events[i].vote, states[i].ledger.tree, states[i + 1].ledger.tree;
            if NamesCanonical(cfg, t, v, events[i].table)
               && X.Completes(cfg.verify, snapAt, 0, states[i].fed + [F.Fed(v, snapAt(v.blockHeight))], |states[i].fed|)
            then t'.finalizedHash == v.blockHash && t'.finalizedHeight == v.blockHeight > t.finalizedHeight
            else t' == t
  {
    var n, v, table := states[i], events[i].vote, events[i].table;
    NodeRunInv(cfg, g, states, events, i);
    assert DeliveredAt(cfg, states, events, i);
    VoteIsFedIff(cfg, n, v, table);
    if NamesCanonical(cfg, n.ledger.tree, v, table) {
      assert Agrees(events, cfg.epochOf(v.blockHeight), snapAt(v.blockHeight));
      FedIsRegular(cfg, g, states, events, content, snapAt, i);
      FedIsRegular(cfg, g, states, events, content, snapAt, i + 1);
      var fed, k := states[i + 1].fed, |n.fed|;
      assert fed[..k] == n.fed;
      X.AnswersExactly(cfg.verify, snapAt, (h: Hash) => content(h).height, F.WithFinalized(0, []), fed, k);
      VoteFinalizes(cfg, n, g, v, table);
    }
  }
}
