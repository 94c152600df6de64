/**
The paginated block store (`src/core/block_store.rs`) in self-persisting mode over the in-memory
backend (`src/storage/backend.rs`): an LRU cache in front of a map, with pruning and reorg
truncation. For every cache size it behaves as a plain sequence of blocks with a floor.
*/
module BlockStore {
  import opened Common
  import opened ForkTree

  // ---------------------------------------------------------------------------
  // The plain sequence

  /**
  A pinned genesis block, what is known at each height up to the head, and the lowest readable
  height. Appended blocks leave no gap; a store opened over a backend with gaps inherits them.
  */
  datatype Chain = Chain(genesis: Block, blocks: seq<Option<Block>>, floor: nat)

  function Read(c: Chain, height: nat): Option<Block>
  {
    if height == 0 then Some(c.genesis)
    else if c.floor <= height < |c.blocks| then c.blocks[height]
    else None
  }

  function Append(c: Chain, b: Block): Chain
  {
    if b.height != |c.blocks| then c
    else c.(genesis := if b.height == 0 then b else c.genesis, blocks := c.blocks + [Some(b)])
  }

  function Prune(c: Chain, keepFrom: nat): Chain
  {
    c.(floor := Max(keepFrom, c.floor))
  }

  function Truncate(c: Chain, from: nat): Chain
  {
    c.(blocks := c.blocks[..Min(from, |c.blocks|)])
  }

  // ---------------------------------------------------------------------------
  // The backend

  class InMemoryBlockBackend {
    var inner: map<nat, Block>

    constructor ()
      ensures inner == map[]
    {
      inner := map[];
    }

    method PutBlock(b: Block)
      modifies this
      ensures inner == old(inner)[b.height := b]
    {
      inner := inner[b.height := b];
    }

    method GetBlock(height: nat) returns (r: Option<Block>)
      ensures r == Stored(inner, height)
    {
      r := if height in inner then Some(inner[height]) else None;
    }

    /** Removes every height below `retainFrom`, genesis included, and counts them. */
    method PruneBlocksBelow(retainFrom: nat) returns (removed: nat)
      modifies this
      ensures forall h :: h in inner <==> h in old(inner) && h >= retainFrom
      ensures forall h :: h in inner ==> inner[h] == old(inner)[h]
      ensures removed == |old(inner)| - |inner|
    {
      removed := 0;
      if retainFrom == 0 {
        return;
      }
      var doomed := set h | h in inner && h < retainFrom;
      removed := |doomed|;
      assert inner.Keys == doomed + (inner.Keys - doomed);
      inner := inner - doomed;
      assert inner.Keys == old(inner).Keys - doomed;
    }

    /** The highest stored height. */
    method GetHeight() returns (r: Option<nat>)
      ensures r.None? <==> inner == map[]
      ensures r.Some? ==> r.value in inner && forall h :: h in inner ==> h <= r.value
    {
      r := None;
      var pending := inner.Keys;
      while pending != {}
        invariant pending <= inner.Keys
        invariant r.None? ==> pending == inner.Keys
        invariant r.Some? ==> r.value in inner && forall h :: h in inner && h !in pending ==> h <= r.value
        decreases |pending|
      {
        var h :| h in pending;
        pending := pending - {h};
        if r.None? || h > r.value {
          r := Some(h);
        }
      }
    }
  }

  // ---------------------------------------------------------------------------
  // The LRU cache: lines from most to least recently used

  datatype Line = Line(height: nat, block: Block)

  function Find(cache: seq<Line>, height: nat): Option<Block>
  {
    if cache == [] then None
    else if cache[0].height == height then Some(cache[0].block)
    else Find(cache[1..], height)
  }

  /** The lines that satisfy `keep`, in order. */
  function Filter(cache: seq<Line>, keep: nat -> bool): (r: seq<Line>)
    ensures |r| <= |cache|
    ensures forall l :: l in r <==> l in cache && keep(l.height)
  {
    if cache == [] then []
    else
      var rest := Filter(cache[1..], keep);
      if keep(cache[0].height) then [cache[0]] + rest else rest
  }

  /** The lines of other heights, in order. */
  function Others(cache: seq<Line>, height: nat): (r: seq<Line>)
    ensures |r| <= |cache|
    ensures forall l :: l in r <==> l in cache && l.height != height
  {
    if cache == [] then []
    else if cache[0].height == height then Others(cache[1..], height)
    else [cache[0]] + Others(cache[1..], height)
  }

  /** Puts a line in front, dropping the least recently used one when the cache overflows. */
  function PutLine(cache: seq<Line>, capacity: nat, l: Line): (r: seq<Line>)
    requires capacity > 0
    ensures |r| <= capacity || |r| <= |cache|
    ensures l in r && forall x :: x in r ==> x == l || x in cache
  {
    var all := [l] + Others(cache, l.height);
    assert all[0] == l;
    if |all| > capacity then assert all[..capacity][0] == l; all[..capacity] else all
  }

  lemma {:induction false} FoundIsCached(cache: seq<Line>, height: nat)
    ensures Find(cache, height).Some? ==> Line(height, Find(cache, height).value) in cache
  {
    if cache != [] && cache[0].height != height { FoundIsCached(cache[1..], height); }
  }

  /** The part of a backend at a height and above, genesis included only from height 0. */
  function AtLeast(inner: map<nat, Block>, height: nat): (r: map<nat, Block>)
    ensures forall h :: h in r <==> h in inner && h >= height
    ensures forall h :: h in r ==> r[h] == inner[h]
  {
    map h | h in inner && h >= height :: inner[h]
  }

  /** What a backend has at a height. */
  function Stored(inner: map<nat, Block>, height: nat): Option<Block>
  {
    if height in inner then Some(inner[height]) else None
  }

  // ---------------------------------------------------------------------------
  // The cursor

  class BlockStoreCursor {
    const storage: InMemoryBlockBackend
    const capacity: nat
    var genesis: Block
    var cache: seq<Line>
    var heightCount: nat
    var baseHeight: nat

    /** The plain sequence this cursor stands for. */
    ghost var chain: Chain

    ghost predicate Valid()
      reads this, storage
    {
      && capacity > 0 && |cache| <= capacity
      && genesis == chain.genesis && heightCount == |chain.blocks| && baseHeight == chain.floor
      && (heightCount > 0 ==> chain.blocks[0] == Some(genesis))
      && (forall l :: l in cache ==> 0 < l.height < heightCount && chain.blocks[l.height] == Some(l.block))
      && (forall h :: 0 < h < heightCount && h >= baseHeight ==> chain.blocks[h] == Stored(storage.inner, h))
    }

    /** `new_with_persist`, once genesis and the head height have been read. */
    constructor (storage: InMemoryBlockBackend, cacheSize: nat, genesis: Block, heightCount: nat, baseHeight: nat)
      requires heightCount > 0
      ensures Valid() && this.storage == storage && cache == []
      ensures chain.genesis == genesis && chain.floor == baseHeight && |chain.blocks| == heightCount
      ensures forall h :: 0 < h < heightCount ==> chain.blocks[h] == Stored(storage.inner, h)
    {
      this.storage := storage;
      capacity := Max(cacheSize, 1);
      this.genesis := genesis;
      cache := [];
      this.heightCount := heightCount;
      this.baseHeight := baseHeight;
      ghost var stored := storage.inner;
      chain := Chain(genesis, seq(heightCount, h requires 0 <= h < heightCount => if h == 0 then Some(genesis) else Stored(stored, h)), baseHeight);
    }

    /** Opening a store: refused exactly when genesis is missing; otherwise every height reads as the backend has it, gaps included. */
    static method Open(storage: InMemoryBlockBackend, cacheSize: nat) returns (r: Option<BlockStoreCursor>)
      ensures r.None? <==> 0 !in storage.inner
      ensures r.Some? ==> fresh(r.value) && r.value.storage == storage && r.value.Valid()
      ensures r.Some? ==> forall h :: Read(r.value.chain, h) == Stored(storage.inner, h)
      ensures r.Some? ==> r.value.baseHeight in storage.inner
    {
      var g := storage.GetBlock(0);
      if g.None? {
        return None;
      }
      var head := storage.GetHeight();
      var count := if head.Some? then head.value + 1 else 1;
      var base := 0;
      if count > 1 {
        var candidate := 1;
        while candidate < count
          invariant 1 <= candidate <= count
          invariant base == 0
          invariant forall h :: 0 < h < candidate ==> h !in storage.inner
        {
          var b := storage.GetBlock(candidate);
          if b.Some? {
            base := candidate;
            break;
          }
          candidate := candidate + 1;
        }
      }
      var cursor := new BlockStoreCursor(storage, cacheSize, g.value, count, base);
      r := Some(cursor);
    }

    /** `block_at`: a hit refreshes the line, a miss loads from the backend. */
    method BlockAt(height: nat) returns (r: Option<Block>)
      requires Valid()
      modifies this`cache
      ensures Valid() && r == Read(chain, height)
      ensures cache == if r.Some? && height > 0 then PutLine(old(cache), capacity, Line(height, r.value)) else old(cache)
    {
      if height == 0 {
        return Some(genesis);
      }
      if height >= heightCount || height < baseHeight {
        return None;
      }
      var hit := Find(cache, height);
      FoundIsCached(cache, height);
      if hit.Some? {
        cache := PutLine(cache, capacity, Line(height, hit.value));
        return hit;
      }
      var loaded := storage.GetBlock(height);
      if loaded.Some? {
        cache := PutLine(cache, capacity, Line(height, loaded.value));
      }
      r := loaded;
    }

    /** `append`: refused unless the block is the next one; persisted before it is cached. */
    method AppendBlock(b: Block) returns (ok: bool)
      requires Valid()
      modifies this, storage
      ensures Valid() && ok == (b.height == old(heightCount))
      ensures chain == Append(old(chain), b)
      ensures cache == if ok && b.height > 0 then PutLine(old(cache), capacity, Line(b.height, b)) else old(cache)
      ensures storage.inner == if ok then old(storage.inner)[b.height := b] else old(storage.inner)
    {
      if b.height != heightCount {
        return false;
      }
      storage.PutBlock(b);
      if b.height == 0 {
        genesis := b;
      } else {
        cache := PutLine(cache, capacity, Line(b.height, b));
      }
      heightCount := heightCount + 1;
      chain := Append(chain, b);
      ok := true;
    }

    /** `prune_below`. */
    method PruneBelow(keepFrom: nat) returns (removed: nat)
      requires Valid()
      modifies this, storage
      ensures Valid() && chain == Prune(old(chain), keepFrom)
      ensures keepFrom > old(baseHeight) ==> forall l :: l in cache ==> l.height >= keepFrom
      ensures removed == |old(storage.inner)| - |storage.inner|
      ensures storage.inner == if keepFrom > old(baseHeight) then AtLeast(old(storage.inner), keepFrom) else old(storage.inner)
    {
      if keepFrom == 0 || keepFrom <= baseHeight {
        return 0;
      }
      removed := storage.PruneBlocksBelow(keepFrom);
      baseHeight := keepFrom;
      cache := Filter(cache, h => h >= keepFrom);
      chain := Prune(chain, keepFrom);
    }

    /** `invalidate_from`: cached lines from that height on go, and the count is cut. */
    method InvalidateFrom(from: nat)
      requires Valid()
      modifies this
      ensures Valid() && chain == Truncate(old(chain), from)
      ensures storage.inner == old(storage.inner)
    {
      cache := Filter(cache, h => h < from);
      if from < heightCount {
        heightCount := from;
      }
      chain := Truncate(chain, from);
    }
  }

  /**
  Pruning and then opening the store anew: the pruned cursor still serves genesis from its own
  copy, but the backend has lost it, so the new cursor is refused exactly when anything was pruned.
  */
  method PruneAndReopen(cursor: BlockStoreCursor, keepFrom: nat, cacheSize: nat) returns (r: Option<BlockStoreCursor>)
    requires cursor.Valid() && 0 in cursor.storage.inner
    modifies cursor, cursor.storage
    ensures cursor.Valid() && Read(cursor.chain, 0) == Some(old(cursor.genesis))
    ensures r.None? <==> keepFrom > old(cursor.baseHeight)
  {
    var _ := cursor.PruneBelow(keepFrom);
    r := BlockStoreCursor.Open(cursor.storage, cacheSize);
  }

  /** The smallest case: genesis and one block, pruned to height 1. */
  method SmallestLoss(g: Block, b: Block, cacheSize: nat) returns (before: Option<BlockStoreCursor>, after: Option<BlockStoreCursor>)
    requires g.height == 0 && b.height == 1
    ensures before.Some? && after.None?
  {
    var backend := new InMemoryBlockBackend();
    backend.PutBlock(g);
    before := BlockStoreCursor.Open(backend, cacheSize);
    assert Read(before.value.chain, 0) == Some(g);
    var ok := before.value.AppendBlock(b);
    after := PruneAndReopen(before.value, 1, cacheSize);
  }

  /**
  Truncating and then opening the store anew: the truncated cursor no longer reads the heights from
  `from` on, but the backend has kept them, so the new cursor reads again all that the old one could.
  */
  method TruncateAndReopen(cursor: BlockStoreCursor, from: nat, cacheSize: nat) returns (r: Option<BlockStoreCursor>)
    requires cursor.Valid() && 0 in cursor.storage.inner
    modifies cursor
    ensures cursor.Valid() && forall h :: h > 0 && h >= from ==> Read(cursor.chain, h) == None
    ensures r.Some? && forall h :: h > 0 && Read(old(cursor.chain), h).Some? ==>
                                     Read(r.value.chain, h) == Read(old(cursor.chain), h)
  {
    cursor.InvalidateFrom(from);
    r := BlockStoreCursor.Open(cursor.storage, cacheSize);
  }

  // ---------------------------------------------------------------------------
  // What each operation does to every read

  /** An appended block is read at its height, unless pruned there, and nothing else changes; a block that is not the next one changes nothing. */
  lemma ReadAfterAppend(c: Chain, b: Block, h: nat)
    ensures Read(Append(c, b), h)
         == if b.height == |c.blocks| && h == b.height && (h == 0 || h >= c.floor) then Some(b) else Read(c, h)
  {
  }

  /** A prune hides exactly the heights strictly between genesis and its limit. */
  lemma ReadAfterPrune(c: Chain, keepFrom: nat, h: nat)
    ensures Read(Prune(c, keepFrom), h) == if 0 < h < keepFrom then None else Read(c, h)
  {
  }

  /** A truncation hides exactly the heights above genesis from its start on. */
  lemma ReadAfterTruncate(c: Chain, from: nat, h: nat)
    ensures Read(Truncate(c, from), h) == if h > 0 && h >= from then None else Read(c, h)
  {
  }

  // ---------------------------------------------------------------------------
  // Runs of the plain sequence

  datatype Op = AppendOp(block: Block) | PruneOp(keepFrom: nat) | TruncateOp(from: nat)

  function Step(c: Chain, op: Op): Chain
  {
    match op
    case AppendOp(b) => Append(c, b)
    case PruneOp(k) => Prune(c, k)
    case TruncateOp(f) => Truncate(c, f)
  }

  function Run(c: Chain, ops: seq<Op>): Chain
  {
    if ops == [] then c else Step(Run(c, ops[..|ops| - 1]), ops[|ops| - 1])
  }

  /** A pruned height is never readable again, even when blocks are truncated and appended anew. */
  lemma {:induction false} PrunedStaysUnreadable(c: Chain, ops: seq<Op>, h: nat)
    requires 0 < h < c.floor
    ensures h < Run(c, ops).floor && Read(Run(c, ops), h) == None
  {
    if ops != [] { PrunedStaysUnreadable(c, ops[..|ops| - 1], h); }
  }

  /** A block stays readable, unchanged, until a prune or a truncation reaches its height; appends, evictions and reads of others do not matter. */
  lemma {:induction false} AppendedStaysReadable(c: Chain, ops: seq<Op>, h: nat)
    requires Read(c, h).Some? && 0 < h
    requires forall i :: 0 <= i < |ops| ==>
               (ops[i].PruneOp? ==> ops[i].keepFrom <= h) && (ops[i].TruncateOp? ==> ops[i].from > h)
    ensures Read(Run(c, ops), h) == Read(c, h)
  {
    if ops != [] { AppendedStaysReadable(c, ops[..|ops| - 1], h); }
  }

  /**
  After a reorg the replaced heights read as the new blocks and the heights below it are untouched.
  Replacing everything, from height 0 on, replaces the pinned genesis too; the floor stays.
  */
  lemma {:induction false} ReorgReplacesSuffix(c: Chain, from: nat, fresh_: seq<Block>)
    requires from <= |c.blocks|
    requires forall i :: 0 <= i < |fresh_| ==> fresh_[i].height == from + i
    ensures Run(c, [TruncateOp(from)] + Appends(fresh_))
         == c.(genesis := if from == 0 && fresh_ != [] then fresh_[0] else c.genesis,
               blocks := c.blocks[..from] + Known(fresh_))
  {
    var ops := [TruncateOp(from)] + Appends(fresh_);
    var n := |ops| - 1;
    if n == 0 {
      assert ops[..0] == [] && Run(c, []) == c;
    } else {
      var init := fresh_[..n - 1];
      ReorgReplacesSuffix(c, from, init);
      assert ops[..n] == [TruncateOp(from)] + Appends(init);
      assert Known(fresh_) == Known(init) + [Some(fresh_[n - 1])];
    }
  }

  function Appends(bs: seq<Block>): (ops: seq<Op>)
    ensures |ops| == |bs|
  {
    seq(|bs|, i requires 0 <= i < |bs| => AppendOp(bs[i]))
  }

  function Known(bs: seq<Block>): seq<Option<Block>>
  {
    seq(|bs|, i requires 0 <= i < |bs| => Some(bs[i]))
  }
}
