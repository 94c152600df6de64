/**
The mutable block tree of `src/core/blocktree.rs`: the parent walks as loops, and every
method tied to the corresponding function of `ForkTree`.
*/
module BlockTreeStore {
  import opened Common
  import opened ForkTree

  function Reverse<T>(s: seq<T>): (r: seq<T>)
    ensures |r| == |s|
  {
    seq(|s|, i requires 0 <= i < |s| => s[|s| - 1 - i])
  }

  /** Below any block other than `a` itself, `Between` loses exactly that block. */
  lemma BetweenStep(e: Entries, a: Hash, d: Hash)
    requires Rooted(e) && d in e && a != d
    ensures Linked(e, d)
    ensures e[d].block.height == 0 ==> Between(e, a, d) == [e[d].block]
    ensures e[d].block.height > 0 ==> Between(e, a, d) == Between(e, a, e[d].block.prevHash) + [e[d].block]
  {
    assert Linked(e, d);
    if e[d].block.height > 0 {
      var p := e[d].block.prevHash;
      AncestorStep(e, a, d);
      assert Path(e, d) == Path(e, p) + [d];
      if Ancestor(e, a, d) {
        AncestorAt(e, a, p);
        AncestorAt(e, a, d);
        var n := e[a].block.height + 1;
        assert Path(e, d)[n..] == Path(e, p)[n..] + [d];
      }
    } else {
      assert Path(e, d) == [d];
    }
  }

  lemma BetweenSelf(e: Entries, a: Hash)
    requires Rooted(e) && a in e
    ensures Between(e, a, a) == []
  {
    assert Path(e, a)[e[a].block.height] == a;
    AncestorAt(e, a, a);
  }

  lemma ReversePush(s: seq<Block>, b: Block)
    ensures Reverse(s + [b]) == [b] + Reverse(s)
  {
  }

  class BlockTree {
    var entries: Entries
    var canonicalTip: Hash
    var finalizedHash: Hash
    var finalizedHeight: nat

    /** The genesis block and the stake each block was accepted with, kept for the proofs only. */
    ghost const genesis: Block
    ghost var stakes: map<Hash, nat>

    function View(): Tree
      reads this
    {
      Tree(entries, canonicalTip, finalizedHash, finalizedHeight)
    }

    ghost predicate Valid()
      reads this
    {
      Inv(Ledger(View(), stakes), genesis)
    }

    /** `from_genesis`. */
    constructor (g: Block)
      ensures View() == Genesis(g) && genesis == g && stakes == map[g.hash := 0]
      ensures g.height == 0 ==> Valid()
    {
      entries := map[g.hash := Entry(g, 0, [])];
      canonicalTip := g.hash;
      finalizedHash := g.hash;
      finalizedHeight := 0;
      genesis := g;
      stakes := map[g.hash := 0];
      new;
      if g.height == 0 { StartInv(g); }
    }

    /** Walks from `descendant` towards genesis looking for `ancestor`. */
    method IsDescendantOf(descendant: Hash, ancestor: Hash) returns (found: bool)
      requires Rooted(entries)
      ensures found <==> Ancestor(entries, ancestor, descendant)
    {
      var current := descendant;
      while current in entries
        invariant descendant in entries <==> current in entries
        invariant current in entries ==>
                    (Ancestor(entries, ancestor, descendant) <==> Ancestor(entries, ancestor, current))
        decreases if current in entries then entries[current].block.height else 0
      {
        if current == ancestor {
          return true;
        }
        assert Linked(entries, current);
        if entries[current].block.height == 0 {
          return false;
        }
        AncestorStep(entries, ancestor, current);
        current := entries[current].block.prevHash;
      }
      found := false;
    }

    /** `canonical_chain`: collected from the tip down, then reversed. */
    method CanonicalBlocks() returns (chain: seq<Block>)
      requires Valid()
      ensures chain == CanonicalChain(View())
    {
      chain := [];
      var current := canonicalTip;
      while current in entries
        invariant current in entries
        invariant Blocks(entries, Path(entries, canonicalTip)) == Blocks(entries, Path(entries, current)) + Reverse(chain)
        decreases entries[current].block.height
      {
        assert Linked(entries, current);
        chain := chain + [entries[current].block];
        if entries[current].block.height == 0 {
          break;
        }
        current := entries[current].block.prevHash;
      }
      chain := Reverse(chain);
    }

    /** `chain_between`: the blocks above `ancestor` up to `descendant`. */
    method ChainBetween(ancestor: Hash, descendant: Hash) returns (blocks: seq<Block>)
      requires Rooted(entries)
      ensures blocks == Between(entries, ancestor, descendant)
    {
      blocks := [];
      var current := descendant;
      while current in entries
        invariant descendant in entries <==> current in entries
        invariant current !in entries ==> blocks == []
        invariant current in entries ==>
                    Between(entries, ancestor, descendant) == Between(entries, ancestor, current) + Reverse(blocks)
        decreases if current in entries then entries[current].block.height else 0
      {
        if current == ancestor {
          BetweenSelf(entries, current);
          break;
        }
        BetweenStep(entries, ancestor, current);
        ReversePush(blocks, entries[current].block);
        ghost var above := Reverse(blocks);
        blocks := blocks + [entries[current].block];
        assert Reverse(blocks) == [entries[current].block] + above;
        if entries[current].block.height == 0 {
          break;
        }
        current := entries[current].block.prevHash;
      }
      blocks := Reverse(blocks);
    }

    /** `common_ancestor`: of two stored blocks it always finds the deepest block that is an ancestor of both. */
    method CommonAncestor(a: Hash, b: Hash) returns (r: Option<Hash>)
      requires Valid()
      ensures a in entries && b in entries ==> r.Some? && DeepestCommon(entries, a, b, r.value)
      ensures a !in entries || b !in entries ==> r.None?
    {
      var ancestors: set<Hash> := {};
      var current := a;
      while current in entries
        invariant a in entries <==> current in entries
        invariant current in entries ==>
                    forall x :: Ancestor(entries, x, a) <==> x in ancestors || Ancestor(entries, x, current)
        invariant current !in entries ==> ancestors == {}
        decreases if current in entries then entries[current].block.height else 0
      {
        assert Linked(entries, current);
        if entries[current].block.height == 0 {
          assert Path(entries, current) == [current];
          ancestors := ancestors + {current};
          break;
        }
        forall x
          ensures Ancestor(entries, x, current) <==> x == current || Ancestor(entries, x, entries[current].block.prevHash)
        { AncestorStep(entries, x, current); }
        ancestors := ancestors + {current};
        current := entries[current].block.prevHash;
      }
      assert forall x :: x in ancestors <==> Ancestor(entries, x, a);

      current := b;
      while current in entries
        invariant b in entries <==> current in entries
        invariant current in entries ==> Ancestor(entries, current, b)
        invariant current in entries ==>
                    forall x :: Ancestor(entries, x, b) && Ancestor(entries, x, a) ==> Ancestor(entries, x, current)
        decreases if current in entries then entries[current].block.height else 0
      {
        if current in ancestors {
          forall x | Ancestor(entries, x, a) && Ancestor(entries, x, b)
            ensures x in entries && entries[x].block.height <= entries[current].block.height
          { AncestorAt(entries, x, current); }
          return Some(current);
        }
        assert Linked(entries, current);
        if entries[current].block.height == 0 {
          if a in entries { GenesisIsAncestor(View(), genesis, a); }
          break;
        }
        var next := entries[current].block.prevHash;
        forall x
          ensures Ancestor(entries, x, current) <==> x == current || Ancestor(entries, x, next)
        { AncestorStep(entries, x, current); }
        AncestorTransitive(entries, next, current, b);
        current := next;
      }
      r := None;
    }

    /** The tests `insert` makes on a block that is not stored yet. */
    method CheckBlock(b: Block) returns (error: Option<TreeError>)
      requires Rooted(entries)
      ensures error == InsertError(View(), b)
    {
      if b.height <= finalizedHeight && b.hash != finalizedHash {
        return Some(BelowFinalized);
      }
      if b.prevHash !in entries {
        return Some(OrphanBlock);
      }
      if b.height != entries[b.prevHash].block.height + 1 {
        return Some(InvalidHeightLink);
      }
      if finalizedHeight > 0 && b.prevHash != finalizedHash {
        var descends := IsDescendantOf(b.prevHash, finalizedHash);
        if !descends {
          return Some(BelowFinalized);
        }
      }
      error := None;
    }

    /** `insert`. */
    method InsertBlock(b: Block, stake: nat) returns (r: InsertResult)
      requires Valid()
      modifies this
      ensures Valid()
      ensures View() == Insert(old(View()), b, stake)
      ensures Rooted(old(entries)) && Rooted(entries) && r == InsertReply(old(View()), b, stake)
      ensures stakes == if Acceptable(old(View()), b) then old(stakes)[b.hash := stake] else old(stakes)
    {
      if b.hash in entries {
        return Accepted(false);
      }
      var error := CheckBlock(b);
      if error.Some? {
        return Rejected(error.value);
      }
      InsertInv(Ledger(View(), stakes), genesis, b, stake);

      var parent := entries[b.prevHash];
      var weight := parent.weight + stake;
      entries := entries[b.prevHash := parent.(children := parent.children + [b.hash])];
      entries := entries[b.hash := Entry(b, weight, [])];
      stakes := stakes[b.hash := stake];
      assert entries == AddEntry(old(entries), b, stake);
      var oldTipWeight := if canonicalTip in entries then entries[canonicalTip].weight else 0;
      if weight > oldTipWeight {
        var oldTip := canonicalTip;
        canonicalTip := b.hash;
        assert View() == Insert(old(View()), b, stake);
        var extends_ := IsDescendantOf(canonicalTip, oldTip);
        r := Accepted(!extends_);
      } else {
        r := Accepted(false);
      }
    }

    /** `set_finalized`, which prunes; the invariant survives when the block is on the canonical chain and not below the finalized height. */
    method SetFinalized(hash: Hash, height: nat)
      requires Valid()
      modifies this
      ensures Rooted(old(entries)) && View() == Finalize(old(View()), hash, height)
      ensures stakes == old(stakes)
      ensures old(Finalizable(View(), hash) && entries[hash].block.height == height) ==> Valid()
    {
      if Finalizable(View(), hash) && entries[hash].block.height == height {
        FinalizeInv(Ledger(View(), stakes), genesis, hash);
      }
      finalizedHash := hash;
      finalizedHeight := height;
      PruneBelowFinalized();
    }

    /** `prune_below_finalized`: keeps the finalized block, its descendants and its ancestors. */
    method PruneBelowFinalized()
      requires Rooted(entries)
      modifies this`entries
      ensures entries == if finalizedHeight == 0 then old(entries) else Comparable(old(entries), finalizedHash)
    {
      if finalizedHeight == 0 {
        return;
      }
      var keep: set<Hash> := {};
      var pending := entries.Keys;
      while pending != {}
        invariant entries == old(entries) && pending <= entries.Keys
        invariant keep == set h | h in entries.Keys - pending && Related(entries, finalizedHash, h)
        decreases |pending|
      {
        var h :| h in pending;
        pending := pending - {h};
        var above := IsDescendantOf(h, finalizedHash);
        var below := IsDescendantOf(finalizedHash, h);
        if h == finalizedHash || above || below {
          keep := keep + {h};
        }
      }
      entries := map h | h in entries && h in keep :: entries[h];
    }
  }
}
