/**
Chunks with an index the manifest does not announce (`src/network/mod.rs`). The assembly files a
chunk under whatever index it carries and compares only the number of chunks with the manifest's
count; this says when that makes a session lose chunks, and that it then never completes.
*/
module SnapshotStray {
  import opened Common
  import opened SnapshotSync
  import opened SnapshotOrder

  /** With as many chunks as announced, an index at or above the count is held exactly when one below it is missing. */
  lemma StrayMeansGap(chunks: map<nat, Chunk>, count: nat)
    requires |chunks| == count
    ensures Leading(chunks, count) < count <==> exists i :: i in chunks && i >= count
  {
    var all, k := Upto(count), Leading(chunks, count);
    if k == count {
      forall i | i in chunks
        ensures i < count
      {
        if i >= count {
          assert all + {i} <= chunks.Keys;
          SubsetSize(all + {i}, chunks.Keys);
        }
      }
    } else if !exists i :: i in chunks && i >= count {
      assert chunks.Keys <= all - {k};
      SubsetSize(chunks.Keys, all - {k});
    }
  }

  lemma SubsetSize(a: set<nat>, b: set<nat>)
    requires a <= b
    ensures |a| <= |b|
  {
    assert b == a + (b - a);
  }

  /** Trying to apply discards chunks without applying if and only if the number matches, an index at or above the count is held, and so is index 0. */
  lemma LosesChunksIff(apply: Applier, s: State)
    requires s.manifest.Some?
    ensures var s', count := TryApply(apply, s), s.manifest.value.chunkCount;
            s'.applied == s.applied && s'.chunks != s.chunks <==>
            |s.chunks| == count && 0 in s.chunks && exists i :: i in s.chunks && i >= count
  {
    var count := s.manifest.value.chunkCount;
    if |s.chunks| == count {
      var k := Leading(s.chunks, count);
      StrayMeansGap(s.chunks, count);
      if k < count {
        assert 0 in s.chunks <==> k > 0;
        if k == 0 {
          assert From(s.chunks, 0) == s.chunks;
        } else {
          assert 0 !in From(s.chunks, k);
        }
      } else {
        assert |TryApply(apply, s).applied| == |s.applied| + 1;
      }
    }
  }

  // ---------------------------------------------------------------------------
  // A stray chunk stalls its session

  /** The session of `m` holds a chunk with an index `m` does not announce. */
  ghost predicate Stalled(s: State, m: Manifest, i: nat)
  {
    s.manifest == Some(m) && i in s.chunks && i >= m.chunkCount
  }

  lemma StalledTry(apply: Applier, s: State, m: Manifest, i: nat)
    requires Stalled(s, m, i)
    ensures var s' := TryApply(apply, s);
            Stalled(s', m, i) && s'.applied == s.applied && s'.local == s.local
  {
    if |s.chunks| == m.chunkCount { StrayMeansGap(s.chunks, m.chunkCount); }
  }

  /** The manifest of the session again, a manifest that is refused, or any chunk. */
  ghost predicate KeepsSession(local: Local, m: Manifest, e: Event)
  {
    e.ManifestArrives? ==> e.manifest == m || !Acceptable(local, e.manifest)
  }

  lemma StalledStep(apply: Applier, s: State, m: Manifest, i: nat, e: Event)
    requires Stalled(s, m, i) && KeepsSession(s.local, m, e)
    ensures var s' := Handle(apply, s, e);
            Stalled(s', m, i) && s'.applied == s.applied && s'.local == s.local
  {
    match e
    case ManifestArrives(m') =>
      if Acceptable(s.local, m') {
        var s1 := s.(manifest := Some(m), chunks := s.chunks + Drained(s.buffer, m.height), buffer := Above(s.buffer, m.height));
        assert OnManifest(apply, s, m') == TryApply(apply, s1);
        StalledTry(apply, s1, m, i);
      }
    case ChunkArrives(height, c) =>
      if m.height == height {
        StalledTry(apply, s.(chunks := s.chunks[c.index := c]), m, i);
      }
  }

  ghost function RunFrom(apply: Applier, s: State, events: seq<Event>): State
  {
    if events == [] then s
    else Handle(apply, RunFrom(apply, s, events[..|events| - 1]), events[|events| - 1])
  }

  /** A session that holds a stray chunk never applies anything, whatever chunks follow. */
  lemma {:induction false} StalledForGood(apply: Applier, s: State, m: Manifest, i: nat, events: seq<Event>)
    requires Stalled(s, m, i) && forall e :: e in events ==> KeepsSession(s.local, m, e)
    ensures var s' := RunFrom(apply, s, events);
            Stalled(s', m, i) && s'.applied == s.applied && s'.local == s.local
  {
    if events != [] {
      var init, e := events[..|events| - 1], events[|events| - 1];
      StalledForGood(apply, s, m, i, init);
      StalledStep(apply, RunFrom(apply, s, init), m, i, e);
    }
  }

  /** One stray chunk right after the manifest of a good snapshot: no sequence of its pieces gets it applied any more. */
  lemma StrayChunkPreventsSnapshot(apply: Applier, p: Plan, stray: Chunk, events: seq<Event>)
    requires Good(apply, p) && AllPieces(p, events) && stray.index >= |p.chunks|
    ensures var s := Handle(apply, Handle(apply, State(None, map[], map[], p.before, []), ManifestArrives(p.manifest)),
                            ChunkArrives(p.manifest.height, stray));
            RunFrom(apply, s, events).applied == []
  {
    var s0 := State(None, map[], map[], p.before, []);
    var none: map<nat, Chunk> := map[];
    var empty: Buffer := map[];
    assert Drained(empty, p.manifest.height) == none && Above(empty, p.manifest.height) == empty && none + none == none;
    var s1 := s0.(manifest := Some(p.manifest));
    assert OnManifest(apply, s0, p.manifest) == TryApply(apply, s1) == s1;
    var s2 := s1.(chunks := map[stray.index := stray]);
    assert OnChunk(apply, s1, p.manifest.height, stray) == TryApply(apply, s2);
    StalledTry(apply, s2, p.manifest, stray.index);
    StalledForGood(apply, TryApply(apply, s2), p.manifest, stray.index, events);
  }

  /** The smallest loss: a session of two chunks that holds the first one discards it on receiving a chunk with index 2. */
  lemma StrayChunkDiscardsFirst(apply: Applier, s: State, first: Chunk, stray: Chunk)
    requires s.manifest.Some? && s.manifest.value.chunkCount == 2 && s.chunks == map[0 := first] && stray.index == 2
    ensures OnChunk(apply, s, s.manifest.value.height, stray) == s.(chunks := map[2 := stray])
  {
    var s1 := s.(chunks := map[0 := first, 2 := stray]);
    assert s.chunks[2 := stray] == s1.chunks;
    assert Leading(s1.chunks, 2) == 1;
    assert From(s1.chunks, 1) == map[2 := stray];
  }
}
