/**
The block tree of `src/core/blocktree.rs` as values: entries linked by parent hash, the
path from genesis to a block, fork choice and finality as functions on a whole tree, and
what every run of them keeps.
*/
module ForkTree {
  import opened Common

  datatype Block = Block(hash: Hash, prevHash: Hash, height: nat, body: Bytes)

  datatype Entry = Entry(block: Block, weight: nat, children: seq<Hash>)

  type Entries = map<Hash, Entry>

  datatype Tree = Tree(entries: Entries, tip: Hash, finalizedHash: Hash, finalizedHeight: nat)

  datatype TreeError = OrphanBlock | InvalidHeightLink | BelowFinalized

  datatype InsertResult = Accepted(reorg: bool) | Rejected(error: TreeError)

  // ---------------------------------------------------------------------------
  // Paths

  /** A stored block is filed under its own hash, and unless it is at height 0 its parent is stored one height lower. */
  ghost predicate Linked(e: Entries, h: Hash)
    requires h in e
  {
    && e[h].block.hash == h
    && (e[h].block.height > 0 ==>
          && e[h].block.prevHash in e
          && e[e[h].block.prevHash].block.height + 1 == e[h].block.height)
  }

  ghost predicate Rooted(e: Entries)
  {
    forall h {:trigger Linked(e, h)} :: h in e ==> Linked(e, h)
  }

  /** The hashes from height 0 up to `h`, following parent links. */
  ghost function Path(e: Entries, h: Hash): (p: seq<Hash>)
    requires Rooted(e) && h in e
    ensures |p| == e[h].block.height + 1
    ensures p[|p| - 1] == h
    decreases e[h].block.height
  {
    assert Linked(e, h);
    if e[h].block.height == 0 then [h] else Path(e, e[h].block.prevHash) + [h]
  }

  /** `a` lies on the path from genesis to the stored block `d`; a block is its own ancestor. */
  ghost predicate Ancestor(e: Entries, a: Hash, d: Hash)
    requires Rooted(e)
  {
    d in e && a in Path(e, d)
  }

  /** One of the two blocks is an ancestor of the other. */
  ghost predicate Related(e: Entries, f: Hash, h: Hash)
    requires Rooted(e)
  {
    Ancestor(e, f, h) || Ancestor(e, h, f)
  }

  /** The node of a path at position `i` is stored, at height `i`, and its own path is the prefix ending there. */
  lemma PathAt(e: Entries, h: Hash, i: nat)
    requires Rooted(e) && h in e && i <= e[h].block.height
    ensures Path(e, h)[i] in e
    ensures e[Path(e, h)[i]].block.height == i
    ensures Path(e, Path(e, h)[i]) == Path(e, h)[..i + 1]
    decreases e[h].block.height
  {
    assert Linked(e, h);
    if i < e[h].block.height {
      PathAt(e, e[h].block.prevHash, i);
      assert Path(e, h)[..i + 1] == Path(e, e[h].block.prevHash)[..i + 1];
    } else {
      assert Path(e, h)[..i + 1] == Path(e, h);
    }
  }

  /** An ancestor is stored, no higher than its descendant, and sits on the path at its own height. */
  lemma AncestorAt(e: Entries, a: Hash, d: Hash)
    requires Rooted(e) && Ancestor(e, a, d)
    ensures a in e && e[a].block.height <= e[d].block.height
    ensures Path(e, d)[e[a].block.height] == a
    ensures Path(e, a) == Path(e, d)[..e[a].block.height + 1]
  {
    var i :| 0 <= i < |Path(e, d)| && Path(e, d)[i] == a;
    PathAt(e, d, i);
  }

  lemma AncestorTransitive(e: Entries, a: Hash, b: Hash, c: Hash)
    requires Rooted(e) && Ancestor(e, a, b) && Ancestor(e, b, c)
    ensures Ancestor(e, a, c)
  {
    AncestorAt(e, b, c);
  }

  /** Two ancestors of one block are ancestors of each other, the lower one of the higher. */
  lemma AncestorsComparable(e: Entries, a: Hash, b: Hash, d: Hash)
    requires Rooted(e) && Ancestor(e, a, d) && Ancestor(e, b, d)
    requires a in e && b in e && e[a].block.height <= e[b].block.height
    ensures Ancestor(e, a, b)
  {
    AncestorAt(e, a, d);
    AncestorAt(e, b, d);
    assert Path(e, b)[e[a].block.height] == a;
  }

  /** Ancestors of a block above height 0 are the block itself and the ancestors of its parent. */
  lemma AncestorStep(e: Entries, a: Hash, d: Hash)
    requires Rooted(e) && d in e && e[d].block.height > 0
    ensures e[d].block.prevHash in e
    ensures Ancestor(e, a, d) <==> a == d || Ancestor(e, a, e[d].block.prevHash)
  {
    assert Linked(e, d);
    var p := e[d].block.prevHash;
    assert Path(e, d) == Path(e, p) + [d];
  }

  /** Two maps file the same block under every hash they share. */
  ghost predicate Agree(e: Entries, e': Entries)
  {
    forall h :: h in e && h in e' ==> e[h].block == e'[h].block
  }

  lemma PathAgrees(e: Entries, e': Entries, h: Hash)
    requires Rooted(e) && Rooted(e') && Agree(e, e') && h in e && h in e'
    ensures Path(e, h) == Path(e', h)
    decreases e[h].block.height
  {
    assert Linked(e, h) && Linked(e', h);
    if e[h].block.height > 0 {
      PathAgrees(e, e', e[h].block.prevHash);
    }
  }

  // ---------------------------------------------------------------------------
  // Operations

  /** The tree holding only the genesis block. */
  function Genesis(g: Block): Tree
  {
    Tree(map[g.hash := Entry(g, 0, [])], g.hash, g.hash, 0)
  }

  /** The first test of `insert` that fails for a block not yet stored, in the order of the source. */
  ghost function InsertError(t: Tree, b: Block): Option<TreeError>
    requires Rooted(t.entries)
  {
    if b.height <= t.finalizedHeight && b.hash != t.finalizedHash then Some(BelowFinalized)
    else if b.prevHash !in t.entries then Some(OrphanBlock)
    else if b.height != t.entries[b.prevHash].block.height + 1 then Some(InvalidHeightLink)
    else if t.finalizedHeight > 0 && b.prevHash != t.finalizedHash && !Ancestor(t.entries, t.finalizedHash, b.prevHash)
    then Some(BelowFinalized)
    else None
  }

  /** The block is new and passes every test of `insert`. */
  ghost predicate Acceptable(t: Tree, b: Block)
    requires Rooted(t.entries)
  {
    b.hash !in t.entries && InsertError(t, b).None?
  }

  /** Files an acceptable block under its parent. */
  function AddEntry(e: Entries, b: Block, stake: nat): Entries
    requires b.prevHash in e && b.hash !in e
  {
    var parent := e[b.prevHash];
    e[b.prevHash := parent.(children := parent.children + [b.hash])][b.hash := Entry(b, parent.weight + stake, [])]
  }

  /** The tree after `insert`: a rejected or known block changes nothing; a strictly heavier block becomes the tip. */
  ghost function Insert(t: Tree, b: Block, stake: nat): Tree
    requires Rooted(t.entries) && t.tip in t.entries
  {
    if !Acceptable(t, b) then t
    else
      var e := AddEntry(t.entries, b, stake);
      t.(entries := e, tip := if e[b.hash].weight > t.entries[t.tip].weight then b.hash else t.tip)
  }

  /** The stored blocks that are ancestors or descendants of `f`. */
  ghost function Comparable(e: Entries, f: Hash): Entries
    requires Rooted(e)
  {
    map h | h in e && Related(e, f, h) :: e[h]
  }

  /** The tree after `set_finalized`, pruning included. */
  ghost function Finalize(t: Tree, hash: Hash, height: nat): Tree
    requires Rooted(t.entries)
  {
    t.(finalizedHash := hash, finalizedHeight := height,
       entries := if height == 0 then t.entries else Comparable(t.entries, hash))
  }

  /** `canonical_chain`: the blocks from genesis to the tip. */
  ghost function CanonicalChain(t: Tree): seq<Block>
    requires Rooted(t.entries) && t.tip in t.entries
  {
    Blocks(t.entries, Path(t.entries, t.tip))
  }

  ghost function Blocks(e: Entries, p: seq<Hash>): (bs: seq<Block>)
    ensures |bs| == |p|
  {
    seq(|p|, i requires 0 <= i < |p| => if p[i] in e then e[p[i]].block else Block(p[i], [], 0, []))
  }

  // ---------------------------------------------------------------------------
  // Invariant

  /** A block's weight is its parent's weight plus its proposer's stake; genesis weighs nothing. */
  ghost predicate WeightAt(e: Entries, stakes: map<Hash, nat>, h: Hash)
    requires h in e
  {
    && h in stakes
    && (e[h].block.height == 0 ==> e[h].weight == stakes[h] == 0)
    && (e[h].block.height > 0 ==>
          e[h].block.prevHash in e && e[h].weight == e[e[h].block.prevHash].weight + stakes[h])
  }

  ghost predicate ChildAt(e: Entries, h: Hash)
    requires h in e
  {
    e[h].block.height > 0 ==> e[h].block.prevHash in e && h in e[e[h].block.prevHash].children
  }

  /** Every stored block links down to the one genesis `g` and is an ancestor or a descendant of the finalized block, which the tip descends from. */
  ghost predicate Shape(t: Tree, g: Block)
  {
    var e := t.entries;
    && Rooted(e)
    && g.height == 0 && g.hash in e && e[g.hash].block == g
    && (forall h :: h in e && e[h].block.height == 0 ==> h == g.hash)
    && t.finalizedHash in e && e[t.finalizedHash].block.height == t.finalizedHeight
    && Ancestor(e, t.finalizedHash, t.tip)
    && (forall h {:trigger Related(e, t.finalizedHash, h)} :: h in e ==> Related(e, t.finalizedHash, h))
  }

  /** Every stored block is listed among its parent's children. */
  ghost predicate Children(e: Entries)
  {
    forall h {:trigger ChildAt(e, h)} :: h in e ==> ChildAt(e, h)
  }

  /** Weights follow the recorded stakes and no stored block outweighs the tip. */
  ghost predicate Weighed(t: Tree, stakes: map<Hash, nat>)
  {
    && (forall h {:trigger WeightAt(t.entries, stakes, h)} :: h in t.entries ==> WeightAt(t.entries, stakes, h))
    && t.tip in t.entries
    && (forall h :: h in t.entries ==> t.entries[h].weight <= t.entries[t.tip].weight)
  }

  /** A tree with the proposer stake each block was accepted with. */
  datatype Ledger = Ledger(tree: Tree, stakes: map<Hash, nat>)

  ghost predicate Inv(s: Ledger, g: Block)
  {
    Shape(s.tree, g) && Children(s.tree.entries) && Weighed(s.tree, s.stakes)
  }

  ghost function Start(g: Block): Ledger { Ledger(Genesis(g), map[g.hash := 0]) }

  lemma StartInv(g: Block)
    requires g.height == 0
    ensures Inv(Start(g), g)
  {
    var e := Genesis(g).entries;
    assert forall h :: h in e ==> h == g.hash;
    assert Rooted(e);
    assert Path(e, g.hash) == [g.hash];
  }

  // Insertion

  /** A block accepted into the tree descends from the finalized block. */
  lemma NewBlockDescends(t: Tree, g: Block, b: Block, stake: nat)
    requires Shape(t, g) && Acceptable(t, b)
    ensures Rooted(AddEntry(t.entries, b, stake)) && Agree(t.entries, AddEntry(t.entries, b, stake))
    ensures Ancestor(AddEntry(t.entries, b, stake), t.finalizedHash, b.hash)
  {
    var e, e' := t.entries, AddEntry(t.entries, b, stake);
    AddEntryRooted(e, b, stake);
    GenesisIsAncestor(t, g, b.prevHash);
    assert Ancestor(e, t.finalizedHash, b.prevHash);
    PathAgrees(e, e', b.prevHash);
    AncestorStep(e', t.finalizedHash, b.hash);
  }

  lemma InsertComparable(e: Entries, e': Entries, f: Hash, h: Hash)
    requires Rooted(e) && Rooted(e') && Agree(e, e') && h in e && h in e' && f in e && f in e'
    requires Related(e, f, h)
    ensures Related(e', f, h)
  {
    PathAgrees(e, e', h);
    PathAgrees(e, e', f);
  }

  lemma InsertShape(t: Tree, g: Block, b: Block, stake: nat)
    requires Shape(t, g) && Acceptable(t, b)
    ensures Shape(Insert(t, b, stake), g)
  {
    var e, e', f := t.entries, AddEntry(t.entries, b, stake), t.finalizedHash;
    NewBlockDescends(t, g, b, stake);
    PathAgrees(e, e', t.tip);
    assert e'.Keys == e.Keys + {b.hash};
    forall h | h in e'
      ensures Related(e', f, h)
    {
      if h != b.hash { assert Related(e, f, h); InsertComparable(e, e', f, h); }
    }
  }

  lemma InsertChildren(e: Entries, b: Block, stake: nat)
    requires Rooted(e) && Children(e) && b.prevHash in e && b.hash !in e
    ensures Children(AddEntry(e, b, stake))
  {
    var e' := AddEntry(e, b, stake);
    forall h | h in e'
      ensures ChildAt(e', h)
    {
      if h != b.hash { assert ChildAt(e, h); }
    }
  }

  lemma AddEntryRooted(e: Entries, b: Block, stake: nat)
    requires Rooted(e) && b.prevHash in e && b.hash !in e && b.height == e[b.prevHash].block.height + 1
    ensures Rooted(AddEntry(e, b, stake)) && Agree(e, AddEntry(e, b, stake))
  {
    var e' := AddEntry(e, b, stake);
    forall h | h in e'
      ensures Linked(e', h)
    {
      if h != b.hash { assert Linked(e, h); }
    }
  }

  lemma GenesisIsAncestor(t: Tree, g: Block, h: Hash)
    requires Shape(t, g) && h in t.entries
    ensures Ancestor(t.entries, g.hash, h)
  {
    PathAt(t.entries, h, 0);
  }

  lemma InsertWeighed(t: Tree, stakes: map<Hash, nat>, b: Block, stake: nat)
    requires Rooted(t.entries) && Weighed(t, stakes) && Acceptable(t, b)
    ensures Weighed(Insert(t, b, stake), stakes[b.hash := stake])
  {
    var e, e' := t.entries, AddEntry(t.entries, b, stake);
    forall h | h in e'
      ensures WeightAt(e', stakes[b.hash := stake], h)
    {
      if h != b.hash { assert WeightAt(e, stakes, h); }
    }
  }

  lemma InsertInv(s: Ledger, g: Block, b: Block, stake: nat)
    requires Inv(s, g) && Acceptable(s.tree, b)
    ensures Inv(Ledger(Insert(s.tree, b, stake), s.stakes[b.hash := stake]), g)
  {
    InsertShape(s.tree, g, b, stake);
    InsertChildren(s.tree.entries, b, stake);
    InsertWeighed(s.tree, s.stakes, b, stake);
  }

  // Finalization

  /** What a caller of `set_finalized` must name: a stored block of the canonical chain, no lower than the current finalized one. */
  ghost predicate Finalizable(t: Tree, hash: Hash)
    requires Rooted(t.entries)
  {
    && Ancestor(t.entries, hash, t.tip)
    && hash in t.entries
    && t.entries[hash].block.height >= t.finalizedHeight
  }

  lemma ComparableRooted(e: Entries, f: Hash)
    requires Rooted(e)
    ensures Rooted(Comparable(e, f)) && Agree(e, Comparable(e, f))
  {
    var e' := Comparable(e, f);
    forall h | h in e'
      ensures Linked(e', h)
    {
      assert Linked(e, h);
      if e[h].block.height > 0 {
        var p := e[h].block.prevHash;
        AncestorStep(e, f, h);
        AncestorStep(e, p, h);
        if h == f || Ancestor(e, h, f) {
          AncestorTransitive(e, p, h, f);
        }
      }
    }
  }

  lemma FinalizeShape(t: Tree, g: Block, hash: Hash)
    requires Shape(t, g) && Finalizable(t, hash)
    ensures Shape(Finalize(t, hash, t.entries[hash].block.height), g)
  {
    var e := t.entries;
    var t' := Finalize(t, hash, e[hash].block.height);
    var e' := t'.entries;
    GenesisIsAncestor(t, g, hash);
    if e[hash].block.height == 0 {
      forall h | h in e
        ensures Related(e, hash, h)
      { GenesisIsAncestor(t, g, h); }
    } else {
      ComparableRooted(e, hash);
      forall h | h in e'
        ensures Path(e', h) == Path(e, h) && Related(e', hash, h)
      { PathAgrees(e, e', h); PathAgrees(e, e', hash); }
    }
  }

  lemma FinalizeInv(s: Ledger, g: Block, hash: Hash)
    requires Inv(s, g) && Finalizable(s.tree, hash)
    ensures Inv(Ledger(Finalize(s.tree, hash, s.tree.entries[hash].block.height), s.stakes), g)
  {
    var t' := Finalize(s.tree, hash, s.tree.entries[hash].block.height);
    FinalizeShape(s.tree, g, hash);
    forall h | h in t'.entries
      ensures WeightAt(t'.entries, s.stakes, h) && ChildAt(t'.entries, h)
    {
      assert WeightAt(s.tree.entries, s.stakes, h) && ChildAt(s.tree.entries, h);
      assert Linked(t'.entries, h);
    }
  }

  // ---------------------------------------------------------------------------
  // What one step keeps

  /**
  `t'` keeps everything `t` finalized: its finalized block is still stored with the same path
  below it, and the finalized block of `t'` descends from it.
  */
  ghost predicate Preserves(t: Tree, t': Tree)
    requires Rooted(t.entries) && Rooted(t'.entries)
  {
    && t.finalizedHash in t.entries
    && Ancestor(t'.entries, t.finalizedHash, t'.finalizedHash)
    && t.finalizedHeight <= t'.finalizedHeight
    && t.finalizedHash in t'.entries
    && Path(t.entries, t.finalizedHash) == Path(t'.entries, t.finalizedHash)
    && (forall h :: h in Path(t.entries, t.finalizedHash) ==>
          h in t.entries && h in t'.entries && t.entries[h].block == t'.entries[h].block)
  }

  lemma PreservesReflexive(t: Tree, g: Block)
    requires Shape(t, g)
    ensures Preserves(t, t)
  {
    PathNodesStored(t.entries, t.finalizedHash);
  }

  lemma PreservesTransitive(t: Tree, t': Tree, t'': Tree)
    requires Rooted(t.entries) && Rooted(t'.entries) && Rooted(t''.entries)
    requires Preserves(t, t') && Preserves(t', t'')
    ensures Preserves(t, t'')
  {
    var f, f' := t.finalizedHash, t'.finalizedHash;
    AncestorAt(t'.entries, f, f');
    AncestorAt(t''.entries, f', t''.finalizedHash);
    assert f in Path(t''.entries, f');
    AncestorTransitive(t''.entries, f, f', t''.finalizedHash);
    AncestorAt(t''.entries, f, f');
  }

  lemma InsertPreserves(t: Tree, g: Block, b: Block, stake: nat)
    requires Shape(t, g) && Shape(Insert(t, b, stake), g)
    ensures Preserves(t, Insert(t, b, stake))
  {
    var t' := Insert(t, b, stake);
    if Acceptable(t, b) { AddEntryRooted(t.entries, b, stake); }
    PathAgrees(t.entries, t'.entries, t.finalizedHash);
    PathNodesStored(t.entries, t.finalizedHash);
  }

  lemma FinalizePreserves(t: Tree, g: Block, hash: Hash)
    requires Shape(t, g) && Finalizable(t, hash)
    requires Shape(Finalize(t, hash, t.entries[hash].block.height), g)
    ensures Preserves(t, Finalize(t, hash, t.entries[hash].block.height))
  {
    var t' := Finalize(t, hash, t.entries[hash].block.height);
    var e, e', f := t.entries, t'.entries, t.finalizedHash;
    AncestorsComparable(e, f, hash, t.tip);
    assert e == e' || e' == Comparable(e, hash);
    assert Agree(e, e');
    forall h | h in Path(e, f)
      ensures h in e && h in e'
    { AncestorTransitive(e, h, f, hash); AncestorAt(e, h, f); }
    PathAgrees(e, e', f);
    PathAgrees(e, e', hash);
  }

  lemma PathNodesStored(e: Entries, h: Hash)
    requires Rooted(e) && h in e
    ensures forall a :: a in Path(e, h) ==> a in e
  {
    forall a | a in Path(e, h)
      ensures a in e
    { AncestorAt(e, a, h); }
  }

  /** The canonical chain of a later tree starts with everything an earlier tree finalized. */
  lemma PreservesChain(t: Tree, t': Tree, g: Block)
    requires Shape(t, g) && Shape(t', g) && Preserves(t, t')
    ensures Ancestor(t'.entries, t.finalizedHash, t'.tip)
    ensures |CanonicalChain(t)| > t.finalizedHeight && |CanonicalChain(t')| > t.finalizedHeight
    ensures CanonicalChain(t')[..t.finalizedHeight + 1] == CanonicalChain(t)[..t.finalizedHeight + 1]
  {
    var f := t.finalizedHash;
    AncestorTransitive(t'.entries, f, t'.finalizedHash, t'.tip);
    AncestorAt(t.entries, f, t.tip);
    AncestorAt(t'.entries, f, t'.tip);
    var n := t.finalizedHeight + 1;
    var p, p' := Path(t.entries, t.tip), Path(t'.entries, t'.tip);
    assert p[..n] == p'[..n] == Path(t.entries, f);
    forall i | 0 <= i < n
      ensures CanonicalChain(t')[i] == CanonicalChain(t)[i]
    {
      assert p[i] == p[..n][i] == p'[..n][i] == p'[i];
      assert p[..n][i] in Path(t.entries, f);
    }
  }

  // ---------------------------------------------------------------------------
  // Runs

  datatype Op = Submit(block: Block, stake: nat) | Finalise(hash: Hash)

  /** The walks of the source end and the tip is stored: what the operations need to be defined. */
  ghost predicate Walkable(t: Tree)
  {
    Rooted(t.entries) && t.tip in t.entries
  }

  /** Inserts are unrestricted; a finalization names an admissible block, with that block's height. */
  ghost predicate Allowed(t: Tree, op: Op)
    requires Walkable(t)
  {
    op.Finalise? ==> Finalizable(t, op.hash)
  }

  ghost function Apply(s: Ledger, op: Op): Ledger
    requires Walkable(s.tree) && Allowed(s.tree, op)
  {
    match op
    case Submit(b, stake) =>
      if Acceptable(s.tree, b) then Ledger(Insert(s.tree, b, stake), s.stakes[b.hash := stake]) else s
    case Finalise(hash) => s.(tree := Finalize(s.tree, hash, s.tree.entries[hash].block.height))
  }

  ghost predicate Step(s: Ledger, op: Op, s': Ledger)
  {
    Walkable(s.tree) && Allowed(s.tree, op) && s' == Apply(s, op)
  }

  ghost predicate StepAt(states: seq<Ledger>, ops: seq<Op>, i: nat)
    requires i < |ops| < |states|
  {
    Step(states[i], ops[i], states[i + 1])
  }

  /** `states` is a run from genesis performing `ops`. */
  ghost predicate IsRun(g: Block, states: seq<Ledger>, ops: seq<Op>)
  {
    && g.height == 0
    && |states| == |ops| + 1
    && states[0] == Start(g)
    && (forall i :: 0 <= i < |ops| ==> StepAt(states, ops, i))
  }

  lemma StepInv(g: Block, s: Ledger, op: Op, s': Ledger)
    requires Inv(s, g) && Step(s, op, s')
    ensures Inv(s', g)
  {
    match op
    case Submit(b, stake) => if Acceptable(s.tree, b) { InsertInv(s, g, b, stake); }
    case Finalise(hash) => FinalizeInv(s, g, hash);
  }

  lemma StepPreserves(g: Block, s: Ledger, op: Op, s': Ledger)
    requires Inv(s, g) && Inv(s', g) && Step(s, op, s')
    ensures Preserves(s.tree, s'.tree)
  {
    match op
    case Submit(b, stake) =>
      assert s'.tree == Insert(s.tree, b, stake);
      InsertPreserves(s.tree, g, b, stake);
    case Finalise(hash) =>
      FinalizePreserves(s.tree, g, hash);
  }

  /** The invariant holds after every step of every run. */
  lemma {:induction false} RunInv(g: Block, states: seq<Ledger>, ops: seq<Op>, i: nat)
    requires IsRun(g, states, ops) && i <= |ops|
    ensures Inv(states[i], g)
  {
    if i == 0 {
      StartInv(g);
    } else {
      RunInv(g, states, ops, i - 1);
      assert StepAt(states, ops, i - 1);
      StepInv(g, states[i - 1], ops[i - 1], states[i]);
    }
  }

  lemma RunStep(g: Block, states: seq<Ledger>, ops: seq<Op>, i: nat)
    requires IsRun(g, states, ops) && i < |ops|
    ensures Step(states[i], ops[i], states[i + 1])
    ensures Inv(states[i], g) && Inv(states[i + 1], g)
  {
    RunInv(g, states, ops, i);
    RunInv(g, states, ops, i + 1);
    assert StepAt(states, ops, i);
  }

  lemma PreservesNext(g: Block, states: seq<Ledger>, ops: seq<Op>, t: Tree, j: nat)
    requires IsRun(g, states, ops) && j < |ops|
    requires Rooted(t.entries) && Inv(states[j], g) && Preserves(t, states[j].tree)
    ensures Inv(states[j + 1], g) && Preserves(t, states[j + 1].tree)
  {
    RunStep(g, states, ops, j);
    StepPreserves(g, states[j], ops[j], states[j + 1]);
    PreservesTransitive(t, states[j].tree, states[j + 1].tree);
  }

  lemma {:induction false} RunPreserves(g: Block, states: seq<Ledger>, ops: seq<Op>, i: nat, j: nat)
    requires IsRun(g, states, ops) && i <= j <= |ops|
    ensures Inv(states[i], g) && Inv(states[j], g)
    ensures Preserves(states[i].tree, states[j].tree)
    decreases j
  {
    RunInv(g, states, ops, i);
    if i == j {
      PreservesReflexive(states[i].tree, g);
    } else {
      RunPreserves(g, states, ops, i, j - 1);
      PreservesNext(g, states, ops, states[i].tree, j - 1);
    }
  }

  /**
  Finality is never reverted: whatever is finalized at some point of a run is on the canonical
  chain at every later point, and the canonical chain up to that height is the same list of blocks.
  */
  lemma FinalityNeverReverted(g: Block, states: seq<Ledger>, ops: seq<Op>, i: nat, j: nat)
    requires IsRun(g, states, ops) && i <= j <= |ops|
    ensures var t, t' := states[i].tree, states[j].tree;
            && Walkable(t) && Walkable(t')
            && Ancestor(t'.entries, t.finalizedHash, t'.tip)
            && t.finalizedHeight <= t'.finalizedHeight
            && |CanonicalChain(t)| > t.finalizedHeight && |CanonicalChain(t')| > t.finalizedHeight
            && CanonicalChain(t')[..t.finalizedHeight + 1] == CanonicalChain(t)[..t.finalizedHeight + 1]
  {
    RunPreserves(g, states, ops, i, j);
    PreservesChain(states[i].tree, states[j].tree, g);
  }

  // ---------------------------------------------------------------------------
  // Pruned blocks stay out

  /** Every stored block is the one block its hash stands for. */
  ghost predicate Consistent(e: Entries, content: Hash -> Block)
  {
    forall h :: h in e ==> e[h].block == content(h)
  }

  /** A hash determines its block: genesis and every submitted block are what `content` files under their hash. */
  ghost predicate HashDetermines(g: Block, ops: seq<Op>, content: Hash -> Block)
  {
    && content(g.hash) == g
    && (forall i :: 0 <= i < |ops| && ops[i].Submit? ==> ops[i].block == content(ops[i].block.hash))
  }

  /** `c` is not stored and is too low ever to be accepted. */
  ghost predicate Barred(t: Tree, c: Hash, content: Hash -> Block)
  {
    c !in t.entries && content(c).height <= t.finalizedHeight
  }

  lemma {:induction false} RunConsistent(g: Block, states: seq<Ledger>, ops: seq<Op>, content: Hash -> Block, i: nat)
    requires IsRun(g, states, ops) && i <= |ops| && HashDetermines(g, ops, content)
    ensures Consistent(states[i].tree.entries, content)
  {
    if i > 0 {
      RunConsistent(g, states, ops, content, i - 1);
      assert StepAt(states, ops, i - 1);
    }
  }

  lemma StepBars(g: Block, s: Ledger, op: Op, s': Ledger, content: Hash -> Block, c: Hash)
    requires Inv(s, g) && Step(s, op, s')
    requires op.Submit? ==> op.block == content(op.block.hash)
    requires Barred(s.tree, c, content)
    ensures Barred(s'.tree, c, content)
  {
  }

  /** When finalization drops a block, some node on that block's path is barred from then on. */
  lemma PruningBars(t: Tree, g: Block, hash: Hash, content: Hash -> Block, h: Hash) returns (c: Hash)
    requires Shape(t, g) && Finalizable(t, hash) && Consistent(t.entries, content)
    requires h in t.entries && h !in Finalize(t, hash, t.entries[hash].block.height).entries
    ensures c in Path(t.entries, h)
    ensures Barred(Finalize(t, hash, t.entries[hash].block.height), c, content)
  {
    var e, n := t.entries, t.entries[hash].block.height;
    c := if e[h].block.height <= n then h else Path(e, h)[n];
    if e[h].block.height > n {
      PathAt(e, h, n);
      if Ancestor(e, c, hash) { AncestorAt(e, c, hash); }
      if Ancestor(e, hash, c) { AncestorAt(e, hash, c); }
    }
  }

  lemma DroppedBars(
    g: Block, states: seq<Ledger>, ops: seq<Op>, content: Hash -> Block, j: nat, h: Hash) returns (c: Hash)
    requires IsRun(g, states, ops) && j < |ops| && HashDetermines(g, ops, content)
    requires Inv(states[j], g) && Consistent(states[j].tree.entries, content)
    requires h in states[j].tree.entries && h !in states[j + 1].tree.entries
    ensures c in Path(states[j].tree.entries, h) && Barred(states[j + 1].tree, c, content)
  {
    RunStep(g, states, ops, j);
    c := PruningBars(states[j].tree, g, ops[j].hash, content, h);
  }

  /** From the moment a block is dropped, some node of its path is barred. */
  lemma {:induction false} RunPruningBars(
    g: Block, states: seq<Ledger>, ops: seq<Op>, content: Hash -> Block, i: nat, j: nat, h: Hash) returns (c: Hash)
    requires IsRun(g, states, ops) && i <= j <= |ops| && HashDetermines(g, ops, content)
    requires Inv(states[i], g)
    requires h in states[i].tree.entries && h !in states[j].tree.entries
    ensures c in Path(states[i].tree.entries, h) && Barred(states[j].tree, c, content)
    decreases j
  {
    if h in states[j - 1].tree.entries {
      RunInv(g, states, ops, j - 1);
      RunConsistent(g, states, ops, content, i);
      RunConsistent(g, states, ops, content, j - 1);
      c := DroppedBars(g, states, ops, content, j - 1, h);
      PathAgrees(states[i].tree.entries, states[j - 1].tree.entries, h);
    } else {
      c := RunPruningBars(g, states, ops, content, i, j - 1, h);
      RunBars(g, states, ops, content, j - 1, j, c);
    }
  }

  lemma {:induction false} RunBars(
    g: Block, states: seq<Ledger>, ops: seq<Op>, content: Hash -> Block, j: nat, k: nat, c: Hash)
    requires IsRun(g, states, ops) && j <= k <= |ops| && HashDetermines(g, ops, content)
    requires Barred(states[j].tree, c, content)
    ensures Barred(states[k].tree, c, content)
    decreases k
  {
    if j < k {
      RunBars(g, states, ops, content, j, k - 1, c);
      RunInv(g, states, ops, k - 1);
      assert StepAt(states, ops, k - 1);
      StepBars(g, states[k - 1], ops[k - 1], states[k], content, c);
    }
  }

  /**
  A pruned block is never accepted again: a block stored at some point of a run and missing later
  is missing ever after, and resubmitting it is refused. A hash stands for one block.
  */
  lemma PrunedNeverReturns(
    g: Block, states: seq<Ledger>, ops: seq<Op>, content: Hash -> Block, i: nat, j: nat, k: nat, h: Hash)
    requires IsRun(g, states, ops) && i <= j <= k <= |ops| && HashDetermines(g, ops, content)
    requires h in states[i].tree.entries && h !in states[j].tree.entries
    ensures h !in states[k].tree.entries
    ensures Walkable(states[k].tree) && !Acceptable(states[k].tree, content(h))
  {
    RunInv(g, states, ops, i);
    RunInv(g, states, ops, k);
    RunConsistent(g, states, ops, content, i);
    RunConsistent(g, states, ops, content, k);
    assert Linked(states[i].tree.entries, h);
    var c := RunPruningBars(g, states, ops, content, i, j, h);
    RunBars(g, states, ops, content, j, k, c);
    BarredBelow(states[i].tree.entries, states[k].tree.entries, content, h, c);
    BarredRefused(g, states[k], states[i].tree.entries, content, h, c);
  }

  lemma BarredBelow(e: Entries, e': Entries, content: Hash -> Block, h: Hash, c: Hash)
    requires Rooted(e) && Rooted(e') && Consistent(e, content) && Consistent(e', content)
    requires h in e && c in Path(e, h) && c !in e'
    ensures h !in e'
  {
    if h in e' {
      PathAgrees(e, e', h);
      PathNodesStored(e', h);
    }
  }

  lemma BarredRefused(g: Block, s: Ledger, e: Entries, content: Hash -> Block, h: Hash, c: Hash)
    requires Inv(s, g) && Rooted(e) && Consistent(e, content) && Consistent(s.tree.entries, content)
    requires h in e && content(h).hash == h && c in Path(e, h) && Barred(s.tree, c, content)
    ensures !Acceptable(s.tree, content(h))
  {
    if Acceptable(s.tree, content(h)) {
      var e' := AddEntry(s.tree.entries, content(h), 0);
      AddEntryRooted(s.tree.entries, content(h), 0);
      BarredBelow(e, e', content, h, c);
    }
  }

  // ---------------------------------------------------------------------------
  // Fork choice

  ghost function PathStake(stakes: map<Hash, nat>, p: seq<Hash>): nat
  {
    if p == [] then 0
    else PathStake(stakes, p[..|p| - 1]) + (if p[|p| - 1] in stakes then stakes[p[|p| - 1]] else 0)
  }

  /** In every reachable tree, pruned or not, a block weighs exactly the proposer stakes on its path from genesis. */
  lemma {:induction false} WeightIsPathStake(s: Ledger, g: Block, h: Hash)
    requires Inv(s, g) && h in s.tree.entries
    ensures s.tree.entries[h].weight == PathStake(s.stakes, Path(s.tree.entries, h))
    decreases s.tree.entries[h].block.height
  {
    var e := s.tree.entries;
    assert Linked(e, h) && WeightAt(e, s.stakes, h);
    if e[h].block.height > 0 {
      WeightIsPathStake(s, g, e[h].block.prevHash);
      assert Path(e, h)[..|Path(e, h)| - 1] == Path(e, e[h].block.prevHash);
    } else {
      assert PathStake(s.stakes, []) == 0;
    }
  }

  /** The tip has not moved, or it has moved to a strictly heavier block. */
  ghost predicate TipHeavier(t: Tree, t': Tree)
  {
    && t.tip in t.entries && t'.tip in t'.entries
    && ((t.tip == t'.tip && t.entries[t.tip].weight == t'.entries[t'.tip].weight)
        || t.entries[t.tip].weight < t'.entries[t'.tip].weight)
  }

  /** Ties keep the earlier tip: over any part of a run the tip stays or becomes strictly heavier. */
  lemma {:induction false} TipMovesOnlyToHeavier(g: Block, states: seq<Ledger>, ops: seq<Op>, i: nat, j: nat)
    requires IsRun(g, states, ops) && i <= j <= |ops|
    ensures TipHeavier(states[i].tree, states[j].tree)
    decreases j
  {
    RunInv(g, states, ops, i);
    if i < j {
      TipMovesOnlyToHeavier(g, states, ops, i, j - 1);
      StepTipHeavier(g, states, ops, j - 1);
    }
  }

  lemma StepTipHeavier(g: Block, states: seq<Ledger>, ops: seq<Op>, j: nat)
    requires IsRun(g, states, ops) && j < |ops|
    ensures TipHeavier(states[j].tree, states[j + 1].tree)
  {
    RunStep(g, states, ops, j);
  }

  /** What `insert` answers: a known block and an unmoved tip are not a reorg; a moved tip is one unless it extends the old tip. */
  ghost function InsertReply(t: Tree, b: Block, stake: nat): InsertResult
    requires Rooted(t.entries) && t.tip in t.entries && Rooted(Insert(t, b, stake).entries)
  {
    if b.hash in t.entries then Accepted(false)
    else
      match InsertError(t, b)
      case Some(error) => Rejected(error)
      case None =>
        var t' := Insert(t, b, stake);
        Accepted(t'.tip != t.tip && !Ancestor(t'.entries, t.tip, t'.tip))
  }

  // ---------------------------------------------------------------------------
  // Common ancestors and reorganisation

  /** `c` is an ancestor of both blocks, and no common ancestor is higher. */
  ghost predicate DeepestCommon(e: Entries, a: Hash, b: Hash, c: Hash)
    requires Rooted(e)
  {
    && Ancestor(e, c, a) && Ancestor(e, c, b)
    && c in e
    && (forall x :: Ancestor(e, x, a) && Ancestor(e, x, b) ==> x in e && e[x].block.height <= e[c].block.height)
  }

  /** `chain_between`: the blocks above `a` on the path to `d`, or the whole path when `a` is not on it. */
  ghost function Between(e: Entries, a: Hash, d: Hash): seq<Block>
    requires Rooted(e)
  {
    if d !in e then []
    else if Ancestor(e, a, d) then
      AncestorAt(e, a, d);
      Blocks(e, Path(e, d)[e[a].block.height + 1..])
    else Blocks(e, Path(e, d))
  }

  lemma SharedBlocks(e: Entries, p: seq<Hash>, q: seq<Hash>, n: nat)
    requires n <= |p| && n <= |q| && p[..n] == q[..n]
    ensures Blocks(e, p)[..n] == Blocks(e, q)[..n]
  {
    forall i | 0 <= i < n
      ensures Blocks(e, p)[i] == Blocks(e, q)[i]
    { assert p[i] == p[..n][i] == q[..n][i] == q[i]; }
  }

  /** Below an ancestor's height a path is the ancestor's own. */
  lemma PathThrough(e: Entries, c: Hash, d: Hash)
    requires Rooted(e) && d in e && Ancestor(e, c, d)
    ensures c in e && e[c].block.height + 1 <= |Path(e, d)| && Path(e, d)[..e[c].block.height + 1] == Path(e, c)
  {
    AncestorAt(e, c, d);
  }

  /** Cutting the old chain at the deepest common ancestor and appending `chain_between` gives the new chain. */
  lemma ReorgRebuildsChain(e: Entries, old_: Hash, new_: Hash, c: Hash)
    requires Rooted(e) && old_ in e && new_ in e && DeepestCommon(e, old_, new_, c)
    ensures e[c].block.height + 1 <= |Path(e, old_)|
    ensures Blocks(e, Path(e, old_))[..e[c].block.height + 1] + Between(e, c, new_) == Blocks(e, Path(e, new_))
  {
    PathThrough(e, c, old_);
    PathThrough(e, c, new_);
    var n, p, q := e[c].block.height + 1, Path(e, old_), Path(e, new_);
    SharedBlocks(e, p, q, n);
    BlocksSplit(e, q, n);
    assert Between(e, c, new_) == Blocks(e, q[n..]);
  }

  lemma BlocksSplit(e: Entries, p: seq<Hash>, n: nat)
    requires n <= |p|
    ensures Blocks(e, p) == Blocks(e, p)[..n] + Blocks(e, p[n..])
  {
  }

  // ---------------------------------------------------------------------------
  // Finalizing off the canonical chain

  /**
  `set_finalized` never re-chooses the tip. For a stored block above height 0 the tip is still
  stored and descends from the finalized block exactly when that block was on the canonical chain.
  */
  lemma TipSurvivesIffCanonical(t: Tree, g: Block, hash: Hash)
    requires Shape(t, g) && hash in t.entries && t.entries[hash].block.height > 0
    ensures var t' := Finalize(t, hash, t.entries[hash].block.height);
            && Rooted(t'.entries)
            && (Ancestor(t'.entries, hash, t'.tip) <==> Ancestor(t.entries, hash, t.tip))
  {
    var e' := Comparable(t.entries, hash);
    ComparableRooted(t.entries, hash);
    if t.tip in e' { PathAgrees(t.entries, e', t.tip); }
  }

  /** Two rival children of genesis, the lighter one finalized: the tip is no longer stored. */
  lemma FinalizingAForkLosesTheTip(g: Block, a: Block, b: Block)
    requires g.height == 0 && a.height == b.height == 1 && a.prevHash == b.prevHash == g.hash
    requires g.hash != a.hash && g.hash != b.hash && a.hash != b.hash
    ensures var t := Insert(Insert(Genesis(g), a, 2), b, 1);
            && t.tip == a.hash && b.hash in t.entries
            && t.tip !in Finalize(t, b.hash, 1).entries
  {
    StartInv(g);
    var t1 := Insert(Genesis(g), a, 2);
    InsertShape(Genesis(g), g, a, 2);
    assert t1.entries.Keys == {g.hash, a.hash};
    var t2 := Insert(t1, b, 1);
    InsertShape(t1, g, b, 1);
    var e := t2.entries;
    AncestorStep(e, a.hash, b.hash);
    AncestorStep(e, b.hash, a.hash);
    assert Path(e, g.hash) == [g.hash];
  }
}
