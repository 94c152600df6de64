/**
What `insert` and `set_finalized` do in every reachable tree (`src/core/blocktree.rs`), said in
terms of parents, heights and paths only: which blocks are accepted, what is answered, which block
becomes the tip, and which blocks a finalization keeps.
*/
module ForkAcceptance {
  import opened Common
  import opened ForkTree

  /** The block's parent is stored one height lower and has the finalized block on its path. */
  ghost predicate Extends(t: Tree, b: Block)
    requires Rooted(t.entries)
  {
    && b.prevHash in t.entries
    && b.height == t.entries[b.prevHash].block.height + 1
    && t.finalizedHash in Path(t.entries, b.prevHash)
  }

  /** In a tree of the invariant nothing at or below the finalized height, and new, extends it. */
  lemma NewAboveFinality(t: Tree, g: Block, b: Block)
    requires Shape(t, g) && Extends(t, b)
    ensures b.height > t.finalizedHeight
  {
    AncestorAt(t.entries, t.finalizedHash, b.prevHash);
  }

  /** At finalized height 0 the finalized block is genesis, on every path. */
  lemma GenesisOnPath(t: Tree, g: Block, h: Hash)
    requires Shape(t, g) && t.finalizedHeight == 0 && h in t.entries
    ensures t.finalizedHash in Path(t.entries, h)
  {
    GenesisIsAncestor(t, g, h);
  }

  lemma AcceptableIsExtending(t: Tree, g: Block, b: Block)
    requires Shape(t, g) && b.hash !in t.entries
    ensures Acceptable(t, b) <==> Extends(t, b)
  {
    if Extends(t, b) {
      NewAboveFinality(t, g, b);
    }
    if b.prevHash in t.entries && t.finalizedHeight == 0 {
      GenesisOnPath(t, g, b.prevHash);
    }
  }

  /**
  In every state of every run, at any finalized height: a block that is not stored is stored by
  `insert`, as it is, if and only if its parent is stored one height lower and has the finalized
  block on its path; otherwise, and for a block already stored, the tree stays as it was.
  */
  lemma InsertStoresIff(g: Block, states: seq<Ledger>, ops: seq<Op>, i: nat, b: Block, stake: nat)
    requires IsRun(g, states, ops) && i <= |ops|
    ensures Walkable(states[i].tree)
    ensures var t, t' := states[i].tree, Insert(states[i].tree, b, stake);
            && (b.hash !in t.entries ==> (b.hash in t'.entries <==> Extends(t, b)))
            && (b.hash in t.entries || !Extends(t, b) ==> t' == t)
            && (b.hash !in t.entries && Extends(t, b) ==>
                  && t'.entries.Keys == t.entries.Keys + {b.hash}
                  && t'.entries[b.hash].block == b
                  && t'.entries[b.hash].weight == t.entries[b.prevHash].weight + stake
                  && t'.entries[b.hash].children == []
                  && (forall h :: h in t.entries ==>
                        t'.entries[h].children
                        == if h == b.prevHash then t.entries[h].children + [b.hash] else t.entries[h].children)
                  && (forall h :: h in t.entries ==>
                        t'.entries[h].block == t.entries[h].block && t'.entries[h].weight == t.entries[h].weight)
                  && t'.tip == (if t.entries[b.prevHash].weight + stake > t.entries[t.tip].weight then b.hash else t.tip)
                  && t'.finalizedHash == t.finalizedHash && t'.finalizedHeight == t.finalizedHeight)
  {
    RunInv(g, states, ops, i);
    if b.hash !in states[i].tree.entries { AcceptableIsExtending(states[i].tree, g, b); }
  }

  /** A child of the tip is accepted in every reachable tree, and with any stake at all it becomes the tip. */
  lemma ChildOfTipIsAccepted(g: Block, states: seq<Ledger>, ops: seq<Op>, i: nat, b: Block, stake: nat)
    requires IsRun(g, states, ops) && i <= |ops|
    requires var t := states[i].tree;
             && b.hash !in t.entries && b.prevHash == t.tip && t.tip in t.entries
             && b.height == t.entries[t.tip].block.height + 1
    ensures Walkable(states[i].tree)
    ensures var t' := Insert(states[i].tree, b, stake);
            b.hash in t'.entries && (stake > 0 ==> t'.tip == b.hash)
  {
    RunInv(g, states, ops, i);
    InsertStoresIff(g, states, ops, i, b, stake);
  }

  lemma ReplyOfExtending(t: Tree, g: Block, b: Block, stake: nat)
    requires Shape(t, g) && t.tip in t.entries && b.hash !in t.entries && Extends(t, b)
    ensures Rooted(Insert(t, b, stake).entries)
    ensures InsertReply(t, b, stake)
         == Accepted(t.entries[b.prevHash].weight + stake > t.entries[t.tip].weight && t.tip !in Path(t.entries, b.prevHash))
  {
    AcceptableIsExtending(t, g, b);
    AddEntryRooted(t.entries, b, stake);
    var t' := Insert(t, b, stake);
    if t'.tip == b.hash {
      AncestorStep(t'.entries, t.tip, b.hash);
      PathAgrees(t.entries, t'.entries, b.prevHash);
    }
  }

  /**
  The answer of `insert` in every reachable tree: a known block is no reorg; a new one is refused as
  below finality, as an orphan or for its height under exactly these conditions; an accepted one is
  a reorg exactly when it outweighs the tip and does not build on it.
  */
  lemma InsertAnswers(g: Block, states: seq<Ledger>, ops: seq<Op>, i: nat, b: Block, stake: nat)
    requires IsRun(g, states, ops) && i <= |ops|
    ensures Walkable(states[i].tree) && Rooted(Insert(states[i].tree, b, stake).entries)
    ensures var t, r := states[i].tree, InsertReply(states[i].tree, b, stake);
            var e := t.entries;
            && (b.hash in e ==> r == Accepted(false))
            && (b.hash !in e && Extends(t, b) ==>
                  r == Accepted(e[b.prevHash].weight + stake > e[t.tip].weight && t.tip !in Path(e, b.prevHash)))
            && (r == Rejected(BelowFinalized) <==>
                  b.hash !in e &&
                  (b.height <= t.finalizedHeight ||
                   (b.prevHash in e && b.height == e[b.prevHash].block.height + 1
                    && t.finalizedHash !in Path(e, b.prevHash))))
            && (r == Rejected(OrphanBlock) <==> b.hash !in e && b.height > t.finalizedHeight && b.prevHash !in e)
            && (r == Rejected(InvalidHeightLink) <==>
                  b.hash !in e && b.height > t.finalizedHeight && b.prevHash in e
                  && b.height != e[b.prevHash].block.height + 1)
  {
    RunInv(g, states, ops, i);
    var t := states[i].tree;
    if b.hash !in t.entries {
      AcceptableIsExtending(t, g, b);
      if Extends(t, b) {
        NewAboveFinality(t, g, b);
        ReplyOfExtending(t, g, b, stake);
      } else if b.prevHash in t.entries && t.finalizedHeight == 0 {
        GenesisOnPath(t, g, b.prevHash);
      }
    }
  }

  /** An admissible finalization keeps exactly the blocks on the finalized block's path and those that have it on theirs, untouched, and the tip. */
  lemma FinalizeKeepsIff(g: Block, states: seq<Ledger>, ops: seq<Op>, i: nat, f: Hash)
    requires IsRun(g, states, ops) && i <= |ops|
    requires f in states[i].tree.entries && Walkable(states[i].tree)
    requires var t := states[i].tree;
             f in Path(t.entries, t.tip) && t.entries[f].block.height >= t.finalizedHeight
    ensures var t := states[i].tree;
            var t' := Finalize(t, f, t.entries[f].block.height);
            && (forall h :: h in t'.entries <==>
                  h in t.entries && (h in Path(t.entries, f) || f in Path(t.entries, h)))
            && (forall h :: h in t'.entries ==> t'.entries[h] == t.entries[h])
            && t'.tip == t.tip && t'.finalizedHash == f && t'.finalizedHeight == t.entries[f].block.height
  {
    RunInv(g, states, ops, i);
    var t := states[i].tree;
    forall h | h in t.entries && t.entries[f].block.height == 0
      ensures f in Path(t.entries, h)
    { GenesisIsAncestor(t, g, h); }
    forall h | h in t.entries
      ensures Related(t.entries, f, h) <==> h in Path(t.entries, f) || f in Path(t.entries, h)
    {
    }
  }
}
