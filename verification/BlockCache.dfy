/**
The block cache is least-recently-used (the `LruCache` of `src/core/block_store.rs`): which lines it
holds after any sequence of uses, and which it has dropped.
*/
module BlockCache {
  import opened Common
  import opened BlockStore

  /** The cache after putting these lines, oldest first. */
  function Touched(lines: seq<Line>, capacity: nat): seq<Line>
    requires capacity > 0
  {
    if lines == [] then [] else PutLine(Touched(lines[..|lines| - 1], capacity), capacity, lines[|lines| - 1])
  }

  /** When a height was last put: one more than the position, 0 for never. */
  function LastUse(lines: seq<Line>, h: nat): (n: nat)
    ensures n <= |lines|
    ensures n > 0 ==> lines[n - 1].height == h
    ensures forall i :: n <= i < |lines| ==> lines[i].height != h
  {
    if lines == [] then 0
    else if lines[|lines| - 1].height == h then |lines|
    else LastUse(lines[..|lines| - 1], h)
  }

  /** The line is the last one put for its height. */
  ghost predicate IsLast(lines: seq<Line>, l: Line)
  {
    LastUse(lines, l.height) > 0 && lines[LastUse(lines, l.height) - 1] == l
  }

  ghost predicate Newer(lines: seq<Line>, a: Line, b: Line)
  {
    LastUse(lines, a.height) > LastUse(lines, b.height)
  }

  /** Every line is the last one put for its height, later uses first. */
  ghost predicate ByRecency(cache: seq<Line>, lines: seq<Line>)
  {
    && (forall i :: 0 <= i < |cache| ==> IsLast(lines, cache[i]))
    && (forall i, j :: 0 <= i < j < |cache| ==> Newer(lines, cache[i], cache[j]))
  }

  /** Nothing left out was used later than anything kept, and nothing is left out while there is room. */
  ghost predicate KeepsLatest(cache: seq<Line>, lines: seq<Line>, capacity: nat)
  {
    forall h :: LastUse(lines, h) > 0 && (forall l :: l in cache ==> l.height != h) ==>
      |cache| == capacity && forall l :: l in cache ==> LastUse(lines, l.height) > LastUse(lines, h)
  }

  lemma LastUseNext(lines: seq<Line>, l: Line, h: nat)
    ensures LastUse(lines + [l], h) == if l.height == h then |lines| + 1 else LastUse(lines, h)
  {
    assert (lines + [l])[..|lines|] == lines;
  }

  lemma TailByRecency(cache: seq<Line>, lines: seq<Line>)
    requires ByRecency(cache, lines) && cache != []
    ensures ByRecency(cache[1..], lines)
    ensures forall l :: l in cache[1..] ==> LastUse(lines, l.height) < LastUse(lines, cache[0].height)
  {
    forall l | l in cache[1..]
      ensures LastUse(lines, l.height) < LastUse(lines, cache[0].height)
    {
      var k :| 0 <= k < |cache[1..]| && cache[1..][k] == l;
      assert cache[k + 1] == l && Newer(lines, cache[0], cache[k + 1]);
    }
  }

  lemma HeadByRecency(x: Line, rest: seq<Line>, lines: seq<Line>)
    requires ByRecency(rest, lines) && IsLast(lines, x)
    requires forall l :: l in rest ==> Newer(lines, x, l)
    ensures ByRecency([x] + rest, lines)
  {
    var all := [x] + rest;
    assert forall i :: 0 < i < |all| ==> all[i] == rest[i - 1] && rest[i - 1] in rest;
    forall i, j | 0 <= i < j < |all|
      ensures Newer(lines, all[i], all[j])
    {
      assert all[j] == rest[j - 1] && all[j] in rest;
      if i > 0 { assert all[i] == rest[i - 1]; }
    }
  }

  lemma {:induction false} OthersKeepOrder(cache: seq<Line>, h: nat, lines: seq<Line>)
    requires ByRecency(cache, lines)
    ensures ByRecency(Others(cache, h), lines) && |Others(cache, h)| >= |cache| - 1
  {
    if cache != [] {
      TailByRecency(cache, lines);
      OthersKeepOrder(cache[1..], h, lines);
      if cache[0].height == h {
        OthersAll(cache[1..], h);
      } else {
        assert IsLast(lines, cache[0]);
        assert forall l :: l in Others(cache[1..], h) ==> l in cache[1..];
        HeadByRecency(cache[0], Others(cache[1..], h), lines);
      }
    }
  }

  lemma {:induction false} OthersAll(cache: seq<Line>, h: nat)
    requires forall l :: l in cache ==> l.height != h
    ensures Others(cache, h) == cache
  {
    if cache != [] { OthersAll(cache[1..], h); }
  }

  /** A use of another height does not change the order of the lines. */
  lemma SameOrderLater(cache: seq<Line>, lines: seq<Line>, l: Line)
    requires ByRecency(cache, lines) && forall x :: x in cache ==> x.height != l.height
    ensures ByRecency(cache, lines + [l])
  {
    forall i | 0 <= i < |cache|
      ensures LastUse(lines + [l], cache[i].height) == LastUse(lines, cache[i].height)
    {
      assert cache[i] in cache;
      LastUseNext(lines, l, cache[i].height);
    }
  }

  lemma PrefixByRecency(cache: seq<Line>, n: nat, lines: seq<Line>)
    requires ByRecency(cache, lines) && n <= |cache|
    ensures ByRecency(cache[..n], lines)
  {
  }

  lemma PutKeepsOrder(cache: seq<Line>, capacity: nat, lines: seq<Line>, l: Line)
    requires capacity > 0 && ByRecency(cache, lines)
    ensures ByRecency([l] + Others(cache, l.height), lines + [l])
    ensures ByRecency(PutLine(cache, capacity, l), lines + [l])
  {
    var rest, all := Others(cache, l.height), [l] + Others(cache, l.height);
    OthersKeepOrder(cache, l.height, lines);
    SameOrderLater(rest, lines, l);
    LastUseNext(lines, l, l.height);
    forall x | x in rest
      ensures LastUse(lines + [l], x.height) < LastUse(lines + [l], l.height)
    { LastUseNext(lines, l, x.height); }
    HeadByRecency(l, rest, lines + [l]);
    if |all| > capacity { PrefixByRecency(all, capacity, lines + [l]); }
  }

  lemma PutKeepsLatest(cache: seq<Line>, capacity: nat, lines: seq<Line>, l: Line)
    requires capacity > 0 && |cache| <= capacity && ByRecency(cache, lines) && KeepsLatest(cache, lines, capacity)
    ensures KeepsLatest(PutLine(cache, capacity, l), lines + [l], capacity)
  {
    var rest, cache' := Others(cache, l.height), PutLine(cache, capacity, l);
    var all := [l] + rest;
    OthersKeepOrder(cache, l.height, lines);
    PutKeepsOrder(cache, capacity, lines, l);
    forall h | LastUse(lines + [l], h) > 0 && (forall x :: x in cache' ==> x.height != h)
      ensures |cache'| == capacity && forall x :: x in cache' ==> LastUse(lines + [l], x.height) > LastUse(lines + [l], h)
    {
      assert l in cache' && h != l.height;
      LastUseNext(lines, l, h);
      LeftOut(cache, capacity, lines, l, h);
    }
  }

  /** Of lines by recency, the first ones were all used later than one beyond them. */
  lemma DroppedIsOldest(all: seq<Line>, n: nat, lines: seq<Line>, x: Line)
    requires ByRecency(all, lines) && x in all
    requires forall y :: y in all[..Min(n, |all|)] ==> y.height != x.height
    ensures n < |all| && forall y :: y in all[..n] ==> LastUse(lines, y.height) > LastUse(lines, x.height)
  {
    var m: nat := Min(n, |all|);
    forall i | 0 <= i < m
      ensures all[i].height != x.height
    { assert all[..m][i] == all[i]; }
    var k :| 0 <= k < |all| && all[k] == x;
    forall y | y in all[..n]
      ensures LastUse(lines, y.height) > LastUse(lines, x.height)
    {
      var i :| 0 <= i < n && all[..n][i] == y;
      assert Newer(lines, all[i], all[k]);
    }
  }

  /** A height used before and not kept after putting another line was left out before, or was the least recent of a full cache. */
  lemma LeftOut(cache: seq<Line>, capacity: nat, lines: seq<Line>, l: Line, h: nat)
    requires capacity > 0 && |cache| <= capacity && ByRecency(cache, lines) && KeepsLatest(cache, lines, capacity)
    requires h != l.height && LastUse(lines, h) > 0
    requires forall x :: x in PutLine(cache, capacity, l) ==> x.height != h
    ensures var cache' := PutLine(cache, capacity, l);
            |cache'| == capacity && forall x :: x in cache' ==> LastUse(lines + [l], x.height) > LastUse(lines, h)
  {
    var rest, cache' := Others(cache, l.height), PutLine(cache, capacity, l);
    var all := [l] + rest;
    OthersKeepOrder(cache, l.height, lines);
    if x :| x in cache && x.height == h {
      PutKeepsOrder(cache, capacity, lines, l);
      LastUseNext(lines, l, h);
      DroppedIsOldest(all, capacity, lines + [l], x);
    } else {
      assert |cache| == capacity && |all| >= capacity;
      forall y | y in cache'
        ensures LastUse(lines + [l], y.height) > LastUse(lines, h)
      {
        LastUseNext(lines, l, y.height);
        if y.height != l.height { assert y in cache; }
      }
    }
  }

  /**
  The cache is least-recently-used: whatever lines were put, it holds, for each height it has, the
  line put last, later uses first; and a height put before is missing only when the cache is full of
  heights used later.
  */
  lemma {:induction false} CacheKeepsLatest(lines: seq<Line>, capacity: nat)
    requires capacity > 0
    ensures var cache := Touched(lines, capacity);
            |cache| <= capacity && ByRecency(cache, lines) && KeepsLatest(cache, lines, capacity)
  {
    if lines != [] {
      var init, l := lines[..|lines| - 1], lines[|lines| - 1];
      assert lines == init + [l];
      CacheKeepsLatest(init, capacity);
      PutKeepsOrder(Touched(init, capacity), capacity, init, l);
      PutKeepsLatest(Touched(init, capacity), capacity, init, l);
    }
  }
}
