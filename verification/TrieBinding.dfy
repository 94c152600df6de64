/**
A trie root binds its contents: two tries with one root hold the same leaves, or the strings
hashed to build them contain a collision.
*/
module TrieBinding {
  import opened Common
  import opened Hashing
  import opened SparseTrie

  /** Everything hashed to build the subtrie below `prefix`. */
  ghost function SubInputs(h: Sha3, leaves: Leaves, prefix: seq<bool>): set<Bytes>
    requires |prefix| <= TRIE_DEPTH
    decreases TRIE_DEPTH - |prefix|
  {
    if !Occupied(leaves, prefix) then {EMPTY_SEED}
    else if |prefix| == TRIE_DEPTH then set k | k in leaves && prefix <= Bits(k) :: LeafInput(k, leaves[k])
    else
      {NodeInput(SubRoot(h, leaves, prefix + [false]), SubRoot(h, leaves, prefix + [true]))}
      + SubInputs(h, leaves, prefix + [false]) + SubInputs(h, leaves, prefix + [true])
  }

  /** The two maps hold the same leaves below `prefix`. */
  ghost predicate SameBelow(a: Leaves, b: Leaves, prefix: seq<bool>)
  {
    && (forall k :: k in a && prefix <= Bits(k) ==> k in b && b[k] == a[k])
    && (forall k :: k in b && prefix <= Bits(k) ==> k in a)
  }

  lemma DomainParts(domain: Bytes, x: Bytes, y: Bytes)
    ensures DomainInput(domain, [x, y]) == DomainPrefix(domain) + (x + y)
  {
    ConcatTwo(x, y);
  }

  lemma SplitAt(p: Bytes, x: Bytes, y: Bytes, x': Bytes, y': Bytes)
    requires |x| == |x'| && p + (x + y) == p + (x' + y')
    ensures x == x' && y == y'
  {
    assert (p + (x + y))[|p|..] == x + y && (p + (x' + y'))[|p|..] == x' + y';
    assert (x + y)[..|x|] == x && (x' + y')[..|x|] == x';
    assert (x + y)[|x|..] == y && (x' + y')[|x|..] == y';
  }

  lemma NodeInputInjective(l: Bytes, r: Bytes, l': Bytes, r': Bytes)
    requires |l| == |l'| && NodeInput(l, r) == NodeInput(l', r')
    ensures l == l' && r == r'
  {
    DomainParts(NODE_DOMAIN, l, r);
    DomainParts(NODE_DOMAIN, l', r');
    SplitAt(DomainPrefix(NODE_DOMAIN), l, r, l', r');
  }

  lemma LeafInputInjective(k: Bytes, v: Bytes, v': Bytes)
    requires LeafInput(k, v) == LeafInput(k, v')
    ensures v == v'
  {
    DomainParts(LEAF_DOMAIN, k, v);
    DomainParts(LEAF_DOMAIN, k, v');
    SplitAt(DomainPrefix(LEAF_DOMAIN), k, v, k, v');
  }

  /** No leaf and no node hashes the empty constant's string. */
  lemma EmptySeedIsNoInput(x: Bytes, y: Bytes)
    ensures NodeInput(x, y) != EMPTY_SEED && LeafInput(x, y) != EMPTY_SEED
  {
    DomainParts(NODE_DOMAIN, x, y);
    DomainParts(LEAF_DOMAIN, x, y);
    assert |NODE_DOMAIN| == 15 && |LEAF_DOMAIN| == 15 && |EMPTY_SEED| == 16;
  }

  lemma SubRootIsDigest(h: Sha3, leaves: Leaves, prefix: seq<bool>)
    requires Digest32(h) && |prefix| <= TRIE_DEPTH
    ensures |SubRoot(h, leaves, prefix)| == 32
  {
  }

  /** The root of a subtrie is the digest of one of the strings hashed for it, and that is the empty string's seed only if it is empty. */
  lemma RootInput(h: Sha3, leaves: Leaves, prefix: seq<bool>) returns (x: Bytes)
    requires |prefix| <= TRIE_DEPTH
    ensures x in SubInputs(h, leaves, prefix) && SubRoot(h, leaves, prefix) == h(x)
    ensures x == EMPTY_SEED <==> !Occupied(leaves, prefix)
  {
    if !Occupied(leaves, prefix) {
      x := EMPTY_SEED;
    } else if |prefix| == TRIE_DEPTH {
      var k :| k in leaves && prefix <= Bits(k) && SubRoot(h, leaves, prefix) == h(LeafInput(k, leaves[k]));
      EmptySeedIsNoInput(k, leaves[k]);
      x := LeafInput(k, leaves[k]);
    } else {
      var l, r := SubRoot(h, leaves, prefix + [false]), SubRoot(h, leaves, prefix + [true]);
      EmptySeedIsNoInput(l, r);
      x := NodeInput(l, r);
    }
  }

  lemma FullPrefix(prefix: seq<bool>, a: Bytes, b: Bytes)
    requires |prefix| == TRIE_DEPTH && |a| == |b| == 32 && prefix <= Bits(a) && prefix <= Bits(b)
    ensures a == b
  {
    assert Bits(a) == prefix == Bits(b);
    BitsInjective(a, b);
  }

  /** At full depth a prefix is a key. */
  lemma SameLeaf(h: Sha3, a: Leaves, b: Leaves, prefix: seq<bool>)
    requires Keyed(a) && Keyed(b) && |prefix| == TRIE_DEPTH
    requires Occupied(a, prefix) && Occupied(b, prefix) && SubRoot(h, a, prefix) == SubRoot(h, b, prefix)
    ensures SameBelow(a, b, prefix) || Collision(h, SubInputs(h, a, prefix), SubInputs(h, b, prefix))
  {
    var i :| i in a && prefix <= Bits(i) && SubRoot(h, a, prefix) == h(LeafInput(i, a[i]));
    var j :| j in b && prefix <= Bits(j) && SubRoot(h, b, prefix) == h(LeafInput(j, b[j]));
    forall k | |k| == 32 && prefix <= Bits(k)
      ensures k == i
    { FullPrefix(prefix, k, i); }
    SameDigest(h, LeafInput(i, a[i]), LeafInput(j, b[j]), SubInputs(h, a, prefix), SubInputs(h, b, prefix));
    if LeafInput(i, a[i]) == LeafInput(j, b[j]) { LeafInputInjective(i, a[i], b[j]); }
  }

  lemma SplitBelow(a: Leaves, b: Leaves, prefix: seq<bool>)
    requires |prefix| < TRIE_DEPTH && SameBelow(a, b, prefix + [false]) && SameBelow(a, b, prefix + [true])
    ensures SameBelow(a, b, prefix)
  {
    forall k | prefix <= Bits(k)
      ensures prefix + [false] <= Bits(k) || prefix + [true] <= Bits(k)
    { assert Bits(k)[..|prefix| + 1] == prefix + [Bits(k)[|prefix|]]; }
  }

  /** Two subtries with one root hold the same leaves, or a collision shows. */
  lemma {:induction false} SubRootBinds(h: Sha3, a: Leaves, b: Leaves, prefix: seq<bool>)
    requires Digest32(h) && Keyed(a) && Keyed(b) && |prefix| <= TRIE_DEPTH
    requires SubRoot(h, a, prefix) == SubRoot(h, b, prefix)
    ensures SameBelow(a, b, prefix) || Collision(h, SubInputs(h, a, prefix), SubInputs(h, b, prefix))
    decreases TRIE_DEPTH - |prefix|
  {
    if Occupied(a, prefix) != Occupied(b, prefix) {
      var x := RootInput(h, a, prefix);
      var y := RootInput(h, b, prefix);
      SameDigest(h, x, y, SubInputs(h, a, prefix), SubInputs(h, b, prefix));
    } else if !Occupied(a, prefix) {
    } else if |prefix| == TRIE_DEPTH {
      SameLeaf(h, a, b, prefix);
    } else {
      InnerBinds(h, a, b, prefix);
    }
  }

  lemma InnerBinds(h: Sha3, a: Leaves, b: Leaves, prefix: seq<bool>)
    requires Digest32(h) && Keyed(a) && Keyed(b) && |prefix| < TRIE_DEPTH
    requires Occupied(a, prefix) && Occupied(b, prefix) && SubRoot(h, a, prefix) == SubRoot(h, b, prefix)
    ensures SameBelow(a, b, prefix) || Collision(h, SubInputs(h, a, prefix), SubInputs(h, b, prefix))
    decreases TRIE_DEPTH - |prefix|, 0
  {
    var p0, p1 := prefix + [false], prefix + [true];
    var x := NodeInput(SubRoot(h, a, p0), SubRoot(h, a, p1));
    var y := NodeInput(SubRoot(h, b, p0), SubRoot(h, b, p1));
    var mine, theirs := SubInputs(h, a, prefix), SubInputs(h, b, prefix);
    SameDigest(h, x, y, mine, theirs);
    if x == y {
      SubRootIsDigest(h, a, p0);
      SubRootIsDigest(h, b, p0);
      NodeInputInjective(SubRoot(h, a, p0), SubRoot(h, a, p1), SubRoot(h, b, p0), SubRoot(h, b, p1));
      SubRootBinds(h, a, b, p0);
      SubRootBinds(h, a, b, p1);
      if SameBelow(a, b, p0) && SameBelow(a, b, p1) {
        SplitBelow(a, b, prefix);
      } else if SameBelow(a, b, p0) {
        CollisionGrows(h, SubInputs(h, a, p1), SubInputs(h, b, p1), mine, theirs);
      } else {
        CollisionGrows(h, SubInputs(h, a, p0), SubInputs(h, b, p0), mine, theirs);
      }
    }
  }

  /** Equal roots mean equal contents, or the two computations exhibit a collision. */
  lemma TrieRootBinds(h: Sha3, a: Leaves, b: Leaves)
    requires Digest32(h) && Keyed(a) && Keyed(b) && TrieRoot(h, a) == TrieRoot(h, b)
    ensures a == b || Collision(h, SubInputs(h, a, []), SubInputs(h, b, []))
  {
    SubRootBinds(h, a, b, []);
    if SameBelow(a, b, []) { SameEverywhere(a, b); }
  }

  lemma SameEverywhere(a: Leaves, b: Leaves)
    requires SameBelow(a, b, [])
    ensures a == b
  {
    forall k
      ensures [] <= Bits(k)
    { assert |Bits(k)| == TRIE_DEPTH; }
    assert a.Keys == b.Keys;
  }
}
