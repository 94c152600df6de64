/**
The sparse Merkle trie of `src/trie/mod.rs`: 256-bit keys, a root computed bottom-up by clearing
one key bit per level over maps visited in any order, and a cached root. The reference is the
obvious recursive trie over bit prefixes.
*/
module SparseTrie {
  import opened Common
  import opened Hashing

  const TRIE_DEPTH: nat := 256

  /** The bytes of "curs3d-smt-empty", "curs3d-smt-node" and "curs3d-smt-leaf". */
  const EMPTY_SEED: Bytes :=
    [0x63, 0x75, 0x72, 0x73, 0x33, 0x64, 0x2d, 0x73, 0x6d, 0x74, 0x2d, 0x65, 0x6d, 0x70, 0x74, 0x79]
  const NODE_DOMAIN: Bytes :=
    [0x63, 0x75, 0x72, 0x73, 0x33, 0x64, 0x2d, 0x73, 0x6d, 0x74, 0x2d, 0x6e, 0x6f, 0x64, 0x65]
  const LEAF_DOMAIN: Bytes :=
    [0x63, 0x75, 0x72, 0x73, 0x33, 0x64, 0x2d, 0x73, 0x6d, 0x74, 0x2d, 0x6c, 0x65, 0x61, 0x66]

  type Leaves = map<Bytes, Bytes>

  function NodeInput(left: Bytes, right: Bytes): Bytes { DomainInput(NODE_DOMAIN, [left, right]) }

  function LeafInput(key: Bytes, value: Bytes): Bytes { DomainInput(LEAF_DOMAIN, [key, value]) }

  function EmptyHash(h: Sha3): Bytes { h(EMPTY_SEED) }

  // ---------------------------------------------------------------------------
  // Key bits, most significant first

  function ByteBit(b: bv8, i: nat): bool
    requires i < 8
  {
    (b >> (7 - i)) & 1 == 1
  }

  /** `get_bit`. */
  function GetBit(key: Bytes, depth: nat): bool
  {
    if depth >= TRIE_DEPTH || depth / 8 >= |key| then false else ByteBit(key[depth / 8], depth % 8)
  }

  function ClearBit(key: Bytes, depth: nat): (k: Bytes)
    requires |key| == 32 && depth < TRIE_DEPTH
    ensures |k| == 32
  {
    key[depth / 8 := key[depth / 8] & !(1 << (7 - depth % 8))]
  }

  function SetBit(key: Bytes, depth: nat): (k: Bytes)
    requires |key| == 32 && depth < TRIE_DEPTH
    ensures |k| == 32
  {
    key[depth / 8 := key[depth / 8] | (1 << (7 - depth % 8))]
  }

  /** A key as its 256 bits. */
  function Bits(key: Bytes): (bits: seq<bool>)
    ensures |bits| == TRIE_DEPTH
  {
    seq(TRIE_DEPTH, i requires 0 <= i < TRIE_DEPTH => GetBit(key, i))
  }

  lemma ByteClear(b: bv8, i: nat, j: nat)
    requires i < 8 && j < 8
    ensures ByteBit(b & !(1 << (7 - i)), j) == (i != j && ByteBit(b, j))
  {
  }

  lemma ByteSet(b: bv8, i: nat, j: nat)
    requires i < 8 && j < 8
    ensures ByteBit(b | (1 << (7 - i)), j) == (i == j || ByteBit(b, j))
  {
  }

  lemma ByteBits(a: bv8, b: bv8)
    requires forall i: nat :: i < 8 ==> ByteBit(a, i) == ByteBit(b, i)
    ensures a == b
  {
    assert ByteBit(a, 0) == ByteBit(b, 0) && ByteBit(a, 1) == ByteBit(b, 1);
    assert ByteBit(a, 2) == ByteBit(b, 2) && ByteBit(a, 3) == ByteBit(b, 3);
    assert ByteBit(a, 4) == ByteBit(b, 4) && ByteBit(a, 5) == ByteBit(b, 5);
    assert ByteBit(a, 6) == ByteBit(b, 6) && ByteBit(a, 7) == ByteBit(b, 7);
  }

  lemma ClearBitAt(key: Bytes, d: nat, i: nat)
    requires |key| == 32 && d < TRIE_DEPTH && i < TRIE_DEPTH
    ensures GetBit(ClearBit(key, d), i) == (i != d && GetBit(key, i))
  {
    if i / 8 == d / 8 {
      ByteClear(key[d / 8], d % 8, i % 8);
      SameByte(d, i);
    } else {
      assert ClearBit(key, d)[i / 8] == key[i / 8];
    }
  }

  lemma SameByte(d: nat, i: nat)
    requires i / 8 == d / 8
    ensures i % 8 == d % 8 <==> i == d
  {
  }

  lemma SetBitAt(key: Bytes, d: nat, i: nat)
    requires |key| == 32 && d < TRIE_DEPTH && i < TRIE_DEPTH
    ensures GetBit(SetBit(key, d), i) == (i == d || GetBit(key, i))
  {
    if i / 8 == d / 8 {
      ByteSet(key[d / 8], d % 8, i % 8);
      SameByte(d, i);
    } else {
      assert SetBit(key, d)[i / 8] == key[i / 8];
    }
  }

  lemma ClearBitBits(key: Bytes, d: nat)
    requires |key| == 32 && d < TRIE_DEPTH
    ensures Bits(ClearBit(key, d)) == Bits(key)[d := false]
  {
    var k := ClearBit(key, d);
    forall i | 0 <= i < TRIE_DEPTH
      ensures Bits(k)[i] == Bits(key)[d := false][i]
    { ClearBitAt(key, d, i); }
  }

  lemma SetBitBits(key: Bytes, d: nat)
    requires |key| == 32 && d < TRIE_DEPTH
    ensures Bits(SetBit(key, d)) == Bits(key)[d := true]
  {
    var k := SetBit(key, d);
    forall i | 0 <= i < TRIE_DEPTH
      ensures Bits(k)[i] == Bits(key)[d := true][i]
    { SetBitAt(key, d, i); }
  }

  /** A 32-byte key is determined by its bits. */
  lemma BitsInjective(a: Bytes, b: Bytes)
    requires |a| == |b| == 32 && Bits(a) == Bits(b)
    ensures a == b
  {
    forall n | 0 <= n < 32
      ensures a[n] == b[n]
    {
      forall i: nat | i < 8
        ensures ByteBit(a[n], i) == ByteBit(b[n], i)
      {
        assert Bits(a)[8 * n + i] == GetBit(a, 8 * n + i) == ByteBit(a[n], i);
        assert Bits(b)[8 * n + i] == GetBit(b, 8 * n + i) == ByteBit(b[n], i);
      }
      ByteBits(a[n], b[n]);
    }
  }

  // ---------------------------------------------------------------------------
  // The reference: a trie over bit prefixes

  ghost predicate Keyed(leaves: Leaves)
  {
    forall k :: k in leaves ==> |k| == 32
  }

  /** Some leaf lies below `prefix`. */
  ghost predicate Occupied(leaves: Leaves, prefix: seq<bool>)
  {
    exists k :: k in leaves && prefix <= Bits(k)
  }

  /** The root of the subtrie below `prefix`: the empty constant, a leaf hash at full depth, or the hash of the two halves. */
  ghost function SubRoot(h: Sha3, leaves: Leaves, prefix: seq<bool>): Bytes
    requires |prefix| <= TRIE_DEPTH
    decreases TRIE_DEPTH - |prefix|
  {
    if !Occupied(leaves, prefix) then EmptyHash(h)
    else if |prefix| == TRIE_DEPTH then
      var k :| k in leaves && prefix <= Bits(k);
      h(LeafInput(k, leaves[k]))
    else h(NodeInput(SubRoot(h, leaves, prefix + [false]), SubRoot(h, leaves, prefix + [true])))
  }

  ghost function TrieRoot(h: Sha3, leaves: Leaves): Bytes
  {
    SubRoot(h, leaves, [])
  }

  // ---------------------------------------------------------------------------
  // One level of the bottom-up computation

  function OrEmpty(h: Sha3, o: Option<Bytes>): Bytes
  {
    if o.Some? then o.value else EmptyHash(h)
  }

  function Lookup(level: Leaves, k: Bytes): Option<Bytes>
  {
    if k in level then Some(level[k]) else None
  }

  /** Nodes grouped under their key with bit `d` cleared: the child whose bit is clear on the left, the other on the right. */
  function Group(level: Leaves, d: nat): map<Bytes, (Option<Bytes>, Option<Bytes>)>
    requires Keyed(level) && d < TRIE_DEPTH
  {
    map q | q in Parents(level, d) :: Entry(level, q, d)
  }

  function Entry(level: Leaves, q: Bytes, d: nat): (Option<Bytes>, Option<Bytes>)
    requires d < TRIE_DEPTH
  {
    (Lookup(level, q), if |q| == 32 then Lookup(level, SetBit(q, d)) else None)
  }

  function Parents(level: Leaves, d: nat): set<Bytes>
    requires Keyed(level) && d < TRIE_DEPTH
  {
    set k | k in level :: ClearBit(k, d)
  }

  function NextLevel(h: Sha3, level: Leaves, d: nat): Leaves
    requires Keyed(level) && d < TRIE_DEPTH
  {
    map q | q in Group(level, d) :: h(NodeInput(OrEmpty(h, Group(level, d)[q].0), OrEmpty(h, Group(level, d)[q].1)))
  }

  /** A parent has bit `d` clear; setting it gives back the right child. */
  lemma ParentBit(k: Bytes, d: nat)
    requires |k| == 32 && d < TRIE_DEPTH
    ensures var q := ClearBit(k, d);
            && ClearBit(q, d) == q && !Bits(q)[d] && Bits(SetBit(q, d))[d] && ClearBit(SetBit(q, d), d) == q
            && k == if Bits(k)[d] then SetBit(q, d) else q
  {
    var q := ClearBit(k, d);
    ClearBitBits(k, d);
    ClearBitBits(q, d);
    SetBitBits(q, d);
    ClearBitBits(SetBit(q, d), d);
    BitsInjective(ClearBit(q, d), q);
    BitsInjective(ClearBit(SetBit(q, d), d), q);
    if Bits(k)[d] { BitsInjective(k, SetBit(q, d)); } else { BitsInjective(k, q); }
  }

  lemma EntryAdd(part: Leaves, k: Bytes, v: Bytes, d: nat)
    requires Keyed(part) && |k| == 32 && k !in part && d < TRIE_DEPTH
    ensures var q := ClearBit(k, d);
            var old_ := Entry(part, q, d);
            && Entry(part[k := v], q, d) == (if GetBit(k, d) then (old_.0, Some(v)) else (Some(v), old_.1))
            && (q !in Parents(part, d) ==> old_ == (None, None))
  {
    var q := ClearBit(k, d);
    ParentBit(k, d);
    assert Bits(k)[d] == GetBit(k, d);
    assert q != SetBit(q, d);
    if q in part { assert ClearBit(q, d) in Parents(part, d); }
    if SetBit(q, d) in part { assert ClearBit(SetBit(q, d), d) in Parents(part, d); }
  }

  lemma EntryKept(part: Leaves, k: Bytes, v: Bytes, d: nat, p: Bytes)
    requires Keyed(part) && |k| == 32 && d < TRIE_DEPTH && p in Parents(part, d) && p != ClearBit(k, d)
    ensures Entry(part[k := v], p, d) == Entry(part, p, d)
  {
    var c :| c in part && p == ClearBit(c, d);
    ParentBit(c, d);
  }

  lemma ParentsAdd(part: Leaves, k: Bytes, v: Bytes, d: nat)
    requires Keyed(part) && |k| == 32 && d < TRIE_DEPTH
    ensures Keyed(part[k := v]) && Parents(part[k := v], d) == Parents(part, d) + {ClearBit(k, d)}
  {
  }

  /** Grouping one more node fills exactly one side of one entry. */
  lemma GroupAdd(part: Leaves, k: Bytes, v: Bytes, d: nat, q: Bytes)
    requires Keyed(part) && |k| == 32 && k !in part && d < TRIE_DEPTH && q == ClearBit(k, d)
    ensures var g := Group(part, d);
            var entry := if q in g then g[q] else (None, None);
            && Keyed(part[k := v])
            && Group(part[k := v], d) == g[q := if GetBit(k, d) then (entry.0, Some(v)) else (Some(v), entry.1)]
  {
    var g := Group(part, d);
    var entry := if q in g then g[q] else (None, None);
    ParentsAdd(part, k, v, d);
    EntryAdd(part, k, v, d);
    GroupUpdated(part, part[k := v], d, q, if GetBit(k, d) then (entry.0, Some(v)) else (Some(v), entry.1)) by {
      forall p | p in Parents(part, d) && p != q
        ensures Entry(part[k := v], p, d) == Entry(part, p, d)
      { EntryKept(part, k, v, d, p); }
    }
  }

  lemma GroupUpdated(part: Leaves, part': Leaves, d: nat, q: Bytes, entry: (Option<Bytes>, Option<Bytes>))
    requires Keyed(part) && Keyed(part') && d < TRIE_DEPTH
    requires Parents(part', d) == Parents(part, d) + {q} && Entry(part', q, d) == entry
    requires forall p :: p in Parents(part, d) && p != q ==> Entry(part', p, d) == Entry(part, p, d)
    ensures Group(part', d) == Group(part, d)[q := entry]
  {
  }

  // ---------------------------------------------------------------------------
  // All levels

  /** A key with every bit from `d` on cleared, one bit at a time as the levels do it. */
  ghost function Cut(key: Bytes, d: nat): (k: Bytes)
    requires |key| == 32 && d <= TRIE_DEPTH
    ensures |k| == 32
    decreases TRIE_DEPTH - d
  {
    if d == TRIE_DEPTH then key else ClearBit(Cut(key, d + 1), d)
  }

  /** The bits of `k` are those of `prefix` followed by zeros. */
  ghost predicate Padded(k: Bytes, prefix: seq<bool>)
  {
    && |k| == 32 && prefix <= Bits(k)
    && (forall i :: |prefix| <= i < TRIE_DEPTH ==> !Bits(k)[i])
  }

  lemma PaddedUnique(a: Bytes, b: Bytes, prefix: seq<bool>)
    requires Padded(a, prefix) && Padded(b, prefix)
    ensures a == b
  {
    forall i | 0 <= i < TRIE_DEPTH
      ensures Bits(a)[i] == Bits(b)[i]
    { if i < |prefix| { assert Bits(a)[i] == prefix[i] == Bits(b)[i]; } }
    BitsInjective(a, b);
  }

  lemma {:induction false} CutPadded(key: Bytes, d: nat)
    requires |key| == 32 && d <= TRIE_DEPTH
    ensures Padded(Cut(key, d), Bits(key)[..d])
    decreases TRIE_DEPTH - d
  {
    if d < TRIE_DEPTH {
      CutPadded(key, d + 1);
      var c := Cut(key, d + 1);
      ClearBitBits(c, d);
      assert Bits(key)[..d] == Bits(key)[..d + 1][..d] <= Bits(c)[d := false];
    }
  }

  ghost function Cuts(leaves: Leaves, d: nat): set<Bytes>
    requires Keyed(leaves) && d <= TRIE_DEPTH
  {
    set k | k in leaves :: Cut(k, d)
  }

  /** After the levels below `d` are done there is one node for each occupied prefix of length `d`, holding its subtrie's root. */
  ghost predicate LevelOk(h: Sha3, leaves: Leaves, level: Leaves, d: nat)
    requires Keyed(leaves) && d <= TRIE_DEPTH
  {
    && level.Keys == Cuts(leaves, d)
    && (forall p {:trigger NodeOk(h, leaves, level, d, p)} :: p in level ==> NodeOk(h, leaves, level, d, p))
  }

  ghost predicate NodeOk(h: Sha3, leaves: Leaves, level: Leaves, d: nat, p: Bytes)
    requires d <= TRIE_DEPTH && p in level
  {
    level[p] == SubRoot(h, leaves, Bits(p)[..d])
  }

  lemma LevelKeyed(h: Sha3, leaves: Leaves, level: Leaves, d: nat)
    requires Keyed(leaves) && d <= TRIE_DEPTH && LevelOk(h, leaves, level, d)
    ensures Keyed(level)
  {
    forall p | p in level
      ensures |p| == 32
    { assert p in Cuts(leaves, d); }
  }

  function LeafNodes(h: Sha3, leaves: Leaves): Leaves
  {
    map k | k in leaves :: h(LeafInput(k, leaves[k]))
  }

  lemma BottomLevelOk(h: Sha3, leaves: Leaves)
    requires Keyed(leaves)
    ensures LevelOk(h, leaves, LeafNodes(h, leaves), TRIE_DEPTH)
  {
    forall k | k in leaves
      ensures NodeOk(h, leaves, LeafNodes(h, leaves), TRIE_DEPTH, k)
    {
      assert Bits(k)[..TRIE_DEPTH] == Bits(k);
      assert Occupied(leaves, Bits(k));
      forall k' | k' in leaves && Bits(k) <= Bits(k')
        ensures k' == k
      { assert Bits(k) == Bits(k'); BitsInjective(k, k'); }
    }
  }

  /** A node of the level is its subtrie's root, and a missing node is an empty subtrie. */
  lemma ChildRoot(h: Sha3, leaves: Leaves, level: Leaves, d: nat, c: Bytes, prefix: seq<bool>)
    requires Keyed(leaves) && d <= TRIE_DEPTH && LevelOk(h, leaves, level, d)
    requires |prefix| == d && Padded(c, prefix)
    ensures OrEmpty(h, Lookup(level, c)) == SubRoot(h, leaves, prefix)
  {
    if c in level {
      assert NodeOk(h, leaves, level, d, c) && Bits(c)[..d] == prefix;
    } else if Occupied(leaves, prefix) {
      var k :| k in leaves && prefix <= Bits(k);
      CutPadded(k, d);
      assert Bits(k)[..d] == prefix && Cut(k, d) in Cuts(leaves, d);
      PaddedUnique(Cut(k, d), c, prefix);
    }
  }

  lemma ParentsAreCuts(h: Sha3, leaves: Leaves, level: Leaves, d: nat)
    requires Keyed(leaves) && Keyed(level) && d < TRIE_DEPTH && LevelOk(h, leaves, level, d + 1)
    ensures Parents(level, d) == Cuts(leaves, d)
  {
    forall q | q in Parents(level, d)
      ensures q in Cuts(leaves, d)
    {
      var p :| p in level && q == ClearBit(p, d);
      var k :| k in leaves && p == Cut(k, d + 1);
      assert q == Cut(k, d);
    }
    forall q | q in Cuts(leaves, d)
      ensures q in Parents(level, d)
    {
      var k :| k in leaves && q == Cut(k, d);
      assert Cut(k, d + 1) in level.Keys;
    }
  }

  /** The two children of a padded key. */
  lemma ChildKeys(q: Bytes, prefix: seq<bool>)
    requires Padded(q, prefix) && |prefix| < TRIE_DEPTH
    ensures Padded(q, prefix + [false]) && Padded(SetBit(q, |prefix|), prefix + [true])
  {
    SetBitBits(q, |prefix|);
  }

  lemma CutPrefix(leaves: Leaves, d: nat, q: Bytes)
    requires Keyed(leaves) && d <= TRIE_DEPTH && q in Cuts(leaves, d)
    ensures Padded(q, Bits(q)[..d]) && Occupied(leaves, Bits(q)[..d])
  {
    var k :| k in leaves && q == Cut(k, d);
    CutPadded(k, d);
    assert Bits(q)[..d] == Bits(k)[..d] <= Bits(k);
  }

  /** A parent's node is the root of its subtrie. */
  lemma ParentRoot(h: Sha3, leaves: Leaves, level: Leaves, d: nat, q: Bytes)
    requires Keyed(leaves) && Keyed(level) && d < TRIE_DEPTH && LevelOk(h, leaves, level, d + 1)
    requires q in Cuts(leaves, d)
    ensures |q| == 32
    ensures h(NodeInput(OrEmpty(h, Entry(level, q, d).0), OrEmpty(h, Entry(level, q, d).1))) ==
            SubRoot(h, leaves, Bits(q)[..d])
  {
    CutPrefix(leaves, d, q);
    ChildRoots(h, leaves, level, d, q, Bits(q)[..d]);
  }

  lemma ChildRoots(h: Sha3, leaves: Leaves, level: Leaves, d: nat, q: Bytes, prefix: seq<bool>)
    requires Keyed(leaves) && d < TRIE_DEPTH && LevelOk(h, leaves, level, d + 1)
    requires |prefix| == d && Padded(q, prefix)
    ensures OrEmpty(h, Entry(level, q, d).0) == SubRoot(h, leaves, prefix + [false])
    ensures OrEmpty(h, Entry(level, q, d).1) == SubRoot(h, leaves, prefix + [true])
  {
    ChildKeys(q, prefix);
    ChildRoot(h, leaves, level, d + 1, q, prefix + [false]);
    ChildRoot(h, leaves, level, d + 1, SetBit(q, d), prefix + [true]);
  }

  lemma NextLevelOk(h: Sha3, leaves: Leaves, level: Leaves, d: nat)
    requires Keyed(leaves) && Keyed(level) && d < TRIE_DEPTH && LevelOk(h, leaves, level, d + 1)
    ensures LevelOk(h, leaves, NextLevel(h, level, d), d)
  {
    ParentsAreCuts(h, leaves, level, d);
    forall q | q in NextLevel(h, level, d)
      ensures NodeOk(h, leaves, NextLevel(h, level, d), d, q)
    { ParentRoot(h, leaves, level, d, q); }
  }

  /** At depth 0 exactly one node remains, and it is the root. */
  lemma TopLevel(h: Sha3, leaves: Leaves, level: Leaves)
    requires Keyed(leaves) && leaves != map[] && LevelOk(h, leaves, level, 0)
    ensures |level| == 1 && forall p :: p in level ==> level[p] == TrieRoot(h, leaves)
  {
    var k :| k in leaves;
    OneCut(leaves, k);
    OnlyNode(h, leaves, level, Cut(k, 0));
  }

  lemma OnlyNode(h: Sha3, leaves: Leaves, level: Leaves, p: Bytes)
    requires RootsOnly(h, leaves, level) && level.Keys == {p}
    ensures |level| == 1 && forall q :: q in level ==> level[q] == TrieRoot(h, leaves)
  {
    assert |level.Keys| == 1;
    assert NodeOk(h, leaves, level, 0, p) && Bits(p)[..0] == [];
  }

  /** Every node at depth 0 is the root. */
  ghost predicate RootsOnly(h: Sha3, leaves: Leaves, level: Leaves)
  {
    forall p {:trigger NodeOk(h, leaves, level, 0, p)} :: p in level ==> NodeOk(h, leaves, level, 0, p)
  }

  lemma OneCut(leaves: Leaves, k: Bytes)
    requires Keyed(leaves) && k in leaves
    ensures Cuts(leaves, 0) == {Cut(k, 0)}
  {
    forall q | q in Cuts(leaves, 0)
      ensures q == Cut(k, 0)
    {
      var k' :| k' in leaves && q == Cut(k', 0);
      CutsMeet(k', k);
    }
    assert Cut(k, 0) in Cuts(leaves, 0);
  }

  lemma CutsMeet(a: Bytes, b: Bytes)
    requires |a| == |b| == 32
    ensures Cut(a, 0) == Cut(b, 0)
  {
    CutPadded(a, 0);
    CutPadded(b, 0);
    PaddedUnique(Cut(a, 0), Cut(b, 0), []);
  }

  // ---------------------------------------------------------------------------
  // The trie object

  /** The grouping pass of `compute_root`, visiting the level in any order. */
  method GroupNodes(level: Leaves, d: nat) returns (parents: map<Bytes, (Option<Bytes>, Option<Bytes>)>)
    requires Keyed(level) && d < TRIE_DEPTH
    ensures parents == Group(level, d)
  {
    parents := map[];
    var pending := level.Keys;
    ghost var part: Leaves := map[];
    while pending != {}
      invariant Keyed(part) && part.Keys == level.Keys - pending && pending <= level.Keys
      invariant forall k :: k in part ==> part[k] == level[k]
      invariant parents == Group(part, d)
      decreases |pending|
    {
      var k :| k in pending;
      pending := pending - {k};
      var parent := ClearBit(k, d);
      GroupAdd(part, k, level[k], d, parent);
      var entry := if parent in parents then parents[parent] else (None, None);
      entry := if GetBit(k, d) then (entry.0, Some(level[k])) else (Some(level[k]), entry.1);
      parents := parents[parent := entry];
      part := part[k := level[k]];
    }
    assert part == level;
  }

  /** The hashing pass of `compute_root`, in any order. */
  method HashParents(h: Sha3, parents: map<Bytes, (Option<Bytes>, Option<Bytes>)>) returns (level: Leaves)
    ensures level == map q | q in parents :: h(NodeInput(OrEmpty(h, parents[q].0), OrEmpty(h, parents[q].1)))
  {
    level := map[];
    var pending := parents.Keys;
    while pending != {}
      invariant pending <= parents.Keys && level.Keys == parents.Keys - pending
      invariant forall q :: q in level ==>
                  level[q] == h(NodeInput(OrEmpty(h, parents[q].0), OrEmpty(h, parents[q].1)))
      decreases |pending|
    {
      var q :| q in pending;
      pending := pending - {q};
      level := level[q := h(NodeInput(OrEmpty(h, parents[q].0), OrEmpty(h, parents[q].1)))];
    }
  }

  /** One turn of the level loop. */
  method LevelUp(h: Sha3, ghost leaves: Leaves, level: Leaves, d: nat) returns (next: Leaves)
    requires Keyed(leaves) && d < TRIE_DEPTH && LevelOk(h, leaves, level, d + 1)
    ensures LevelOk(h, leaves, next, d)
  {
    LevelKeyed(h, leaves, level, d + 1);
    NextLevelOk(h, leaves, level, d);
    var parents := GroupNodes(level, d);
    next := HashParents(h, parents);
    assert next == NextLevel(h, level, d);
  }

  /** The level loop, from the leaves up to depth 0. */
  method RunLevels(h: Sha3, leaves: Leaves) returns (level: Leaves)
    requires Keyed(leaves)
    ensures LevelOk(h, leaves, level, 0)
  {
    level := LeafNodes(h, leaves);
    BottomLevelOk(h, leaves);
    for d := TRIE_DEPTH downto 0
      invariant LevelOk(h, leaves, level, d)
    {
      level := LevelUp(h, leaves, level, d);
    }
  }

  class SparseMerkleTrie {
    const h: Sha3
    var leaves: Leaves
    var cachedRoot: Option<Bytes>

    /** Keys have 32 bytes, empty values are never stored, and a cached root is the root of the current leaves. */
    ghost predicate Valid()
      reads this
    {
      && Keyed(leaves)
      && (forall k :: k in leaves ==> leaves[k] != [])
      && (cachedRoot.Some? ==> cachedRoot.value == TrieRoot(h, leaves))
    }

    constructor (h: Sha3)
      ensures Valid() && leaves == map[] && this.h == h
    {
      this.h := h;
      leaves := map[];
      cachedRoot := None;
    }

    /** `insert`: an empty value removes the key. */
    method Insert(key: Bytes, value: Bytes)
      requires Valid() && |key| == 32
      modifies this
      ensures Valid()
      ensures leaves == if value == [] then old(leaves) - {key} else old(leaves)[key := value]
    {
      if value == [] {
        leaves := leaves - {key};
      } else {
        leaves := leaves[key := value];
      }
      cachedRoot := None;
    }

    method Remove(key: Bytes)
      requires Valid()
      modifies this
      ensures Valid() && leaves == old(leaves) - {key}
    {
      leaves := leaves - {key};
      cachedRoot := None;
    }

    /** `root`: cached or computed, it is the root of the reference trie over the current leaves. */
    method Root() returns (root: Bytes)
      requires Valid()
      modifies this`cachedRoot
      ensures Valid() && root == TrieRoot(h, leaves)
    {
      if cachedRoot.Some? {
        return cachedRoot.value;
      }
      root := ComputeRoot();
      cachedRoot := Some(root);
    }

    /** `compute_root`: the level-by-level computation agrees with the recursive one. */
    method ComputeRoot() returns (root: Bytes)
      requires Keyed(leaves)
      ensures root == TrieRoot(h, leaves)
    {
      if leaves == map[] {
        assert !Occupied(leaves, []);
        return EmptyHash(h);
      }
      var level := RunLevels(h, leaves);
      TopLevel(h, leaves, level);
      var top :| top in level;
      root := level[top];
    }
  }
}
