/**
Where applied chunks come from (`src/network/mod.rs`): for any manifests and chunks in any order,
what is applied with a manifest arrived for that manifest's height under its own index, was not
collected under another chunk root, and was not overtaken by another session; and the buffer keeps
to its limits.
*/
module SnapshotProvenance {
  import opened Common
  import opened SnapshotSync
  import opened SnapshotOrder

  function Fresh(local: Local): State
  {
    State(None, map[], map[], local, [])
  }

  /** The state before event `n`. */
  ghost function At(apply: Applier, local: Local, events: seq<Event>, n: nat): State
    requires n <= |events|
  {
    Run(apply, Fresh(local), events[..n])
  }

  lemma AtNext(apply: Applier, local: Local, events: seq<Event>, n: nat)
    requires n < |events|
    ensures At(apply, local, events, n + 1) == Handle(apply, At(apply, local, events, n), events[n])
  {
    assert events[..n + 1][..n] == events[..n];
  }

  /** Event `n` is a manifest that is good for the chain as it then is. */
  ghost predicate Accepts(apply: Applier, local: Local, events: seq<Event>, n: nat)
    requires n < |events|
  {
    events[n].ManifestArrives? && GoodManifest(At(apply, local, events, n).local, events[n].manifest)
  }

  lemma AcceptsIff(apply: Applier, local: Local, events: seq<Event>, n: nat)
    requires n < |events| && events[n].ManifestArrives?
    ensures Accepts(apply, local, events, n) <==> Acceptable(At(apply, local, events, n).local, events[n].manifest)
  {
  }

  /** Event `j` brings the chunk for the height and index. */
  predicate Brings(e: Event, height: nat, i: nat, c: Chunk)
  {
    e == ChunkArrives(height, c) && c.index == i
  }

  ghost predicate NoHigherSession(apply: Applier, local: Local, events: seq<Event>, j: nat, n: nat, height: nat)
    requires n <= |events|
  {
    forall l :: j < l < n && Accepts(apply, local, events, l) ==> events[l].manifest.height < height
  }

  ghost predicate SessionOpen(s: State, height: nat)
  {
    s.manifest.Some? && s.manifest.value.height == height
  }

  /** A waiting chunk came when no session of its height was open, and no session of its height or above has opened since. */
  ghost predicate WaitsSince(apply: Applier, local: Local, events: seq<Event>, j: nat, n: nat, k: (nat, nat), c: Chunk)
    requires j < n <= |events|
  {
    && Brings(events[j], k.0, k.1, c) && !SessionOpen(At(apply, local, events, j), k.0)
    && NoHigherSession(apply, local, events, j, n, k.0)
  }

  /** No session has opened since but those of lower height, whose chunks this one waited through, and those of this height and chunk root. */
  ghost predicate Undisturbed(apply: Applier, local: Local, events: seq<Event>, j: nat, n: nat, height: nat, root: Bytes)
    requires n <= |events|
  {
    forall l :: j < l < n && Accepts(apply, local, events, l) ==>
      events[l].manifest.height < height || (events[l].manifest.height == height && events[l].manifest.chunkRoot == root)
  }

  /** A session's chunk came for its height and index, not while a session of that height with another chunk root was open, and undisturbed since. */
  ghost predicate CameFor(
    apply: Applier, local: Local, events: seq<Event>, j: nat, n: nat, height: nat, root: Bytes, i: nat, c: Chunk)
    requires j < n <= |events|
  {
    && Brings(events[j], height, i, c)
    && (SessionOpen(At(apply, local, events, j), height) ==> At(apply, local, events, j).manifest.value.chunkRoot == root)
    && Undisturbed(apply, local, events, j, n, height, root)
  }

  ghost predicate Waits(apply: Applier, local: Local, events: seq<Event>, n: nat, k: (nat, nat), c: Chunk)
    requires n <= |events|
  {
    exists j :: 0 <= j < n && WaitsSince(apply, local, events, j, n, k, c)
  }

  ghost predicate Belongs(apply: Applier, local: Local, events: seq<Event>, n: nat, height: nat, root: Bytes, i: nat, c: Chunk)
    requires n <= |events|
  {
    exists j :: 0 <= j < n && CameFor(apply, local, events, j, n, height, root, i, c)
  }

  /** An application: the manifest was accepted before, there is one chunk for each index, and each belongs to the manifest's session. */
  ghost predicate Legitimate(apply: Applier, local: Local, events: seq<Event>, n: nat, m: Manifest, cs: seq<Chunk>)
    requires n <= |events|
  {
    && |cs| == m.chunkCount
    && (exists a :: 0 <= a < n && Accepts(apply, local, events, a) && events[a].manifest == m)
    && (exists u :: 0 <= u <= n && AllBelong(apply, local, events, u, m, cs))
  }

  ghost predicate AllBelong(apply: Applier, local: Local, events: seq<Event>, u: nat, m: Manifest, cs: seq<Chunk>)
    requires u <= |events|
  {
    forall i :: 0 <= i < |cs| ==> Belongs(apply, local, events, u, m.height, m.chunkRoot, i, cs[i])
  }

  // ---------------------------------------------------------------------------
  // Invariant

  ghost predicate BufferTraced(apply: Applier, local: Local, events: seq<Event>, n: nat, buffer: Buffer)
    requires n <= |events|
  {
    forall k :: k in buffer ==> Waits(apply, local, events, n, k, buffer[k])
  }

  ghost predicate ChunksTraced(
    apply: Applier, local: Local, events: seq<Event>, n: nat, height: nat, root: Bytes, chunks: map<nat, Chunk>)
    requires n <= |events|
  {
    forall i :: i in chunks ==> Belongs(apply, local, events, n, height, root, i, chunks[i])
  }

  ghost predicate ManifestTraced(apply: Applier, local: Local, events: seq<Event>, n: nat, m: Manifest)
    requires n <= |events|
  {
    exists a :: 0 <= a < n && Accepts(apply, local, events, a) && events[a].manifest == m
  }

  ghost predicate AppliedTraced(apply: Applier, local: Local, events: seq<Event>, n: nat, log: seq<(Manifest, seq<Chunk>)>)
    requires n <= |events|
  {
    forall k :: 0 <= k < |log| ==> Legitimate(apply, local, events, n, log[k].0, log[k].1)
  }

  ghost predicate Traced(apply: Applier, local: Local, events: seq<Event>, n: nat, s: State)
    requires n <= |events|
  {
    && BufferTraced(apply, local, events, n, s.buffer)
    && (s.manifest.Some? ==>
          ManifestTraced(apply, local, events, n, s.manifest.value)
          && ChunksTraced(apply, local, events, n, s.manifest.value.height, s.manifest.value.chunkRoot, s.chunks))
    && AppliedTraced(apply, local, events, n, s.applied)
  }

  // ---------------------------------------------------------------------------
  // One event later

  lemma UndisturbedNext(
    apply: Applier, local: Local, events: seq<Event>, j: nat, n: nat, height: nat, root: Bytes)
    requires n < |events| && Undisturbed(apply, local, events, j, n, height, root)
    requires Accepts(apply, local, events, n) ==>
               events[n].manifest.height < height || (events[n].manifest.height == height && events[n].manifest.chunkRoot == root)
    ensures Undisturbed(apply, local, events, j, n + 1, height, root)
  {
    forall l | j < l < n + 1 && Accepts(apply, local, events, l)
      ensures events[l].manifest.height < height || (events[l].manifest.height == height && events[l].manifest.chunkRoot == root)
    {
      if l < n { assert Accepts(apply, local, events, l); } else { assert l == n; }
    }
  }

  lemma NoHigherNext(apply: Applier, local: Local, events: seq<Event>, j: nat, n: nat, height: nat)
    requires n < |events| && NoHigherSession(apply, local, events, j, n, height)
    requires Accepts(apply, local, events, n) ==> events[n].manifest.height < height
    ensures NoHigherSession(apply, local, events, j, n + 1, height)
  {
    forall l | j < l < n + 1 && Accepts(apply, local, events, l)
      ensures events[l].manifest.height < height
    {
      if l < n { assert Accepts(apply, local, events, l); } else { assert l == n; }
    }
  }

  lemma NoHigherUndisturbed(apply: Applier, local: Local, events: seq<Event>, j: nat, n: nat, height: nat, root: Bytes)
    requires n <= |events| && NoHigherSession(apply, local, events, j, n, height)
    ensures Undisturbed(apply, local, events, j, n, height, root)
  {
  }

  lemma BelongsLater(
    apply: Applier, local: Local, events: seq<Event>, n: nat, height: nat, root: Bytes, i: nat, c: Chunk)
    requires n < |events| && Belongs(apply, local, events, n, height, root, i, c)
    requires Accepts(apply, local, events, n) ==>
               events[n].manifest.height < height || (events[n].manifest.height == height && events[n].manifest.chunkRoot == root)
    ensures Belongs(apply, local, events, n + 1, height, root, i, c)
  {
    var j :| 0 <= j < n && CameFor(apply, local, events, j, n, height, root, i, c);
    UndisturbedNext(apply, local, events, j, n, height, root);
    var u := n + 1;
    assert CameFor(apply, local, events, j, u, height, root, i, c);
  }

  lemma WaitsLater(apply: Applier, local: Local, events: seq<Event>, n: nat, k: (nat, nat), c: Chunk)
    requires n < |events| && Waits(apply, local, events, n, k, c)
    requires Accepts(apply, local, events, n) ==> events[n].manifest.height < k.0
    ensures Waits(apply, local, events, n + 1, k, c)
  {
    var j :| 0 <= j < n && WaitsSince(apply, local, events, j, n, k, c);
    NoHigherNext(apply, local, events, j, n, k.0);
    var u := n + 1;
    assert WaitsSince(apply, local, events, j, u, k, c);
  }

  lemma WaitedFor(
    apply: Applier, local: Local, events: seq<Event>, j: nat, n: nat, u: nat, height: nat, root: Bytes, i: nat, c: Chunk)
    requires j < n <= u <= |events| && WaitsSince(apply, local, events, j, n, (height, i), c)
    requires Undisturbed(apply, local, events, j, u, height, root)
    ensures CameFor(apply, local, events, j, u, height, root, i, c)
  {
  }

  lemma OpensUndisturbed(apply: Applier, local: Local, events: seq<Event>, j: nat, n: nat, m: Manifest)
    requires n < |events| && events[n] == ManifestArrives(m) && NoHigherSession(apply, local, events, j, n, m.height)
    ensures Undisturbed(apply, local, events, j, n + 1, m.height, m.chunkRoot)
  {
    NoHigherUndisturbed(apply, local, events, j, n, m.height, m.chunkRoot);
    UndisturbedNext(apply, local, events, j, n, m.height, m.chunkRoot);
  }

  /** A waiting chunk belongs to the session that opens at its height. */
  lemma WaitingBelongs(apply: Applier, local: Local, events: seq<Event>, n: nat, m: Manifest, i: nat, c: Chunk)
    requires n < |events| && events[n] == ManifestArrives(m)
    requires Waits(apply, local, events, n, (m.height, i), c)
    ensures Belongs(apply, local, events, n + 1, m.height, m.chunkRoot, i, c)
  {
    var j :| 0 <= j < n && WaitsSince(apply, local, events, j, n, (m.height, i), c);
    var u := n + 1;
    OpensUndisturbed(apply, local, events, j, n, m);
    WaitedFor(apply, local, events, j, n, u, m.height, m.chunkRoot, i, c);
    assert CameFor(apply, local, events, j, u, m.height, m.chunkRoot, i, c);
  }

  lemma LegitimateLater(apply: Applier, local: Local, events: seq<Event>, n: nat, m: Manifest, cs: seq<Chunk>)
    requires n < |events| && Legitimate(apply, local, events, n, m, cs)
    ensures Legitimate(apply, local, events, n + 1, m, cs)
  {
    var a :| 0 <= a < n && Accepts(apply, local, events, a) && events[a].manifest == m;
    var u :| 0 <= u <= n && AllBelong(apply, local, events, u, m, cs);
  }

  lemma AppliedLater(apply: Applier, local: Local, events: seq<Event>, n: nat, log: seq<(Manifest, seq<Chunk>)>)
    requires n < |events| && AppliedTraced(apply, local, events, n, log)
    ensures AppliedTraced(apply, local, events, n + 1, log)
  {
    forall k | 0 <= k < |log|
      ensures Legitimate(apply, local, events, n + 1, log[k].0, log[k].1)
    { LegitimateLater(apply, local, events, n, log[k].0, log[k].1); }
  }

  /** Trying to apply keeps everything traced. */
  lemma TryTraced(apply: Applier, local: Local, events: seq<Event>, n: nat, s: State)
    requires n <= |events| && Traced(apply, local, events, n, s) && s.manifest.Some?
    ensures Traced(apply, local, events, n, TryApply(apply, s))
  {
    var m := s.manifest.value;
    if |s.chunks| == m.chunkCount {
      var k := Leading(s.chunks, m.chunkCount);
      if k < m.chunkCount {
        assert ChunksTraced(apply, local, events, n, m.height, m.chunkRoot, From(s.chunks, k));
      } else {
        NewApplication(apply, local, events, n, s);
      }
    }
  }

  lemma NewApplication(apply: Applier, local: Local, events: seq<Event>, n: nat, s: State)
    requires n <= |events| && Traced(apply, local, events, n, s) && s.manifest.Some?
    requires Leading(s.chunks, s.manifest.value.chunkCount) == s.manifest.value.chunkCount
    ensures var m := s.manifest.value;
            AppliedTraced(apply, local, events, n, s.applied + [(m, InOrder(s.chunks, m.chunkCount))])
  {
    var m := s.manifest.value;
    var cs := InOrder(s.chunks, m.chunkCount);
    assert AllBelong(apply, local, events, n, m, cs);
    assert Legitimate(apply, local, events, n, m, cs);
  }

  lemma ManifestTracedLater(apply: Applier, local: Local, events: seq<Event>, n: nat, m: Manifest)
    requires n < |events| && ManifestTraced(apply, local, events, n, m)
    ensures ManifestTraced(apply, local, events, n + 1, m)
  {
    var a :| 0 <= a < n && Accepts(apply, local, events, a) && events[a].manifest == m;
  }

  /** An event that opens no session. */
  lemma QuietTraced(apply: Applier, local: Local, events: seq<Event>, n: nat, s: State)
    requires n < |events| && Traced(apply, local, events, n, s) && !Accepts(apply, local, events, n)
    ensures Traced(apply, local, events, n + 1, s)
  {
    var u := n + 1;
    forall k | k in s.buffer
      ensures Waits(apply, local, events, u, k, s.buffer[k])
    { WaitsLater(apply, local, events, n, k, s.buffer[k]); }
    if s.manifest.Some? {
      var m := s.manifest.value;
      ManifestTracedLater(apply, local, events, n, m);
      forall i | i in s.chunks
        ensures Belongs(apply, local, events, u, m.height, m.chunkRoot, i, s.chunks[i])
      { BelongsLater(apply, local, events, n, m.height, m.chunkRoot, i, s.chunks[i]); }
    }
    AppliedLater(apply, local, events, n, s.applied);
  }

  /** The session that an accepted manifest opens or keeps, before trying to apply. */
  lemma OpeningTraced(apply: Applier, local: Local, events: seq<Event>, n: nat, s: State)
    requires n < |events| && Traced(apply, local, events, n, s) && Accepts(apply, local, events, n)
    ensures var m := events[n].manifest;
            var same := s.manifest.Some? && s.manifest.value.height == m.height && s.manifest.value.chunkRoot == m.chunkRoot;
            var kept := if same then s.chunks else map[];
            Traced(apply, local, events, n + 1,
                   s.(manifest := Some(m), chunks := kept + Drained(s.buffer, m.height), buffer := Above(s.buffer, m.height)))
  {
    var m, u := events[n].manifest, n + 1;
    var same := s.manifest.Some? && s.manifest.value.height == m.height && s.manifest.value.chunkRoot == m.chunkRoot;
    var kept: map<nat, Chunk> := if same then s.chunks else map[];
    var chunks, buffer := kept + Drained(s.buffer, m.height), Above(s.buffer, m.height);
    forall k | k in buffer
      ensures Waits(apply, local, events, u, k, buffer[k])
    { WaitsLater(apply, local, events, n, k, s.buffer[k]); }
    forall i | i in chunks
      ensures Belongs(apply, local, events, u, m.height, m.chunkRoot, i, chunks[i])
    {
      if i in Drained(s.buffer, m.height) {
        assert Waits(apply, local, events, n, (m.height, i), s.buffer[(m.height, i)]);
        WaitingBelongs(apply, local, events, n, m, i, chunks[i]);
      } else {
        BelongsLater(apply, local, events, n, m.height, m.chunkRoot, i, chunks[i]);
      }
    }
    AppliedLater(apply, local, events, n, s.applied);
    assert ManifestTraced(apply, local, events, u, m);
  }

  lemma ChunkTraced(apply: Applier, local: Local, events: seq<Event>, n: nat, s: State)
    requires n < |events| && events[n].ChunkArrives? && s == At(apply, local, events, n) && Traced(apply, local, events, n, s)
    ensures Traced(apply, local, events, n + 1, OnChunk(apply, s, events[n].height, events[n].chunk))
  {
    var h, c, u := events[n].height, events[n].chunk, n + 1;
    QuietTraced(apply, local, events, n, s);
    if s.manifest.Some? && s.manifest.value.height == h {
      var root := s.manifest.value.chunkRoot;
      assert CameFor(apply, local, events, n, u, h, root, c.index, c);
      var s1 := s.(chunks := s.chunks[c.index := c]);
      assert ChunksTraced(apply, local, events, u, h, root, s1.chunks);
      TryTraced(apply, local, events, u, s1);
    } else {
      assert WaitsSince(apply, local, events, n, u, (h, c.index), c);
      assert BufferTraced(apply, local, events, u, s.buffer[(h, c.index) := c]);
    }
  }

  lemma {:induction false} RunTraced(apply: Applier, local: Local, events: seq<Event>, n: nat)
    requires n <= |events|
    ensures Traced(apply, local, events, n, At(apply, local, events, n))
  {
    if n > 0 {
      var k := n - 1;
      var s := At(apply, local, events, k);
      RunTraced(apply, local, events, k);
      AtNext(apply, local, events, k);
      if events[k].ChunkArrives? {
        ChunkTraced(apply, local, events, k, s);
      } else {
        AcceptsIff(apply, local, events, k);
        if Accepts(apply, local, events, k) {
          var m := events[k].manifest;
          var same := s.manifest.Some? && s.manifest.value.height == m.height && s.manifest.value.chunkRoot == m.chunkRoot;
          var kept: map<nat, Chunk> := if same then s.chunks else map[];
          OpeningTraced(apply, local, events, k, s);
          TryTraced(apply, local, events, n,
                    s.(manifest := Some(m), chunks := kept + Drained(s.buffer, m.height), buffer := Above(s.buffer, m.height)));
        } else {
          QuietTraced(apply, local, events, k, s);
        }
      }
    }
  }

  /**
  For any events, every application was for a manifest that had been accepted, with one chunk for
  each of its indices; and each of these arrived, at some event before, for the manifest's height
  under that very index, when no session of that height with another chunk root was open, and from
  then until the application no session was opened but lower ones and those of this height and root.
  */
  lemma AppliedChunksBelong(apply: Applier, local: Local, events: seq<Event>, k: nat, i: nat)
    returns (a: nat, j: nat, u: nat)
    requires k < |Run(apply, Fresh(local), events).applied|
    requires i < |Run(apply, Fresh(local), events).applied[k].1|
    ensures var (m, cs) := Run(apply, Fresh(local), events).applied[k];
            && |cs| == m.chunkCount
            && a < |events| && Accepts(apply, local, events, a) && events[a] == ManifestArrives(m)
            && j < u <= |events| && events[j] == ChunkArrives(m.height, cs[i]) && cs[i].index == i
            && (SessionOpen(At(apply, local, events, j), m.height) ==>
                  At(apply, local, events, j).manifest.value.chunkRoot == m.chunkRoot)
            && (forall l :: j < l < u && Accepts(apply, local, events, l) ==>
                  events[l].manifest.height < m.height
                  || (events[l].manifest.height == m.height && events[l].manifest.chunkRoot == m.chunkRoot))
  {
    var n := |events|;
    RunTraced(apply, local, events, n);
    assert events[..n] == events;
    var log := Run(apply, Fresh(local), events).applied;
    var m, cs := log[k].0, log[k].1;
    assert Legitimate(apply, local, events, n, m, cs);
    a :| 0 <= a < n && Accepts(apply, local, events, a) && events[a].manifest == m;
    u :| 0 <= u <= n && AllBelong(apply, local, events, u, m, cs);
    assert Belongs(apply, local, events, u, m.height, m.chunkRoot, i, cs[i]);
    j :| 0 <= j < u && CameFor(apply, local, events, j, u, m.height, m.chunkRoot, i, cs[i]);
  }

  // ---------------------------------------------------------------------------
  // Limits

  lemma {:induction false} SmallerBuffer(a: Buffer, b: Buffer)
    requires forall k :: k in a ==> k in b && b[k] == a[k]
    ensures |a| <= |b| && BufferedBytes(a) <= BufferedBytes(b)
    decreases |b|
  {
    if b == map[] {
      assert a == map[];
    } else {
      var k :| k in b;
      var rest := b - {k};
      assert rest.Keys == b.Keys - {k} && rest[k := b[k]] == b;
      AddChunk(rest, k, b[k]);
      if k in a {
        var less := a - {k};
        assert less[k := a[k]] == a;
        AddChunk(less, k, a[k]);
        SmallerBuffer(less, rest);
      } else {
        SmallerBuffer(a, rest);
      }
    }
  }

  lemma ReplacedChunk(b: Buffer, k: (nat, nat), c: Chunk)
    ensures |b[k := c]| <= |b| + 1 && BufferedBytes(b[k := c]) <= BufferedBytes(b) + |c.data|
  {
    var rest := b - {k};
    assert rest[k := c] == b[k := c];
    AddChunk(rest, k, c);
    SmallerBuffer(rest, b);
  }

  ghost predicate WithinLimits(b: Buffer)
  {
    |b| <= 2048 && BufferedBytes(b) <= 134217728
  }

  lemma TryKeepsBuffer(apply: Applier, s: State)
    requires s.manifest.Some?
    ensures TryApply(apply, s).buffer == s.buffer
  {
  }

  lemma ManifestBuffer(apply: Applier, s: State, m: Manifest)
    ensures var b := OnManifest(apply, s, m).buffer;
            b == s.buffer || b == Above(s.buffer, m.height)
  {
    if Acceptable(s.local, m) {
      var same := s.manifest.Some? && s.manifest.value.height == m.height && s.manifest.value.chunkRoot == m.chunkRoot;
      var kept: map<nat, Chunk> := if same then s.chunks else map[];
      TryKeepsBuffer(apply, s.(manifest := Some(m), chunks := kept + Drained(s.buffer, m.height), buffer := Above(s.buffer, m.height)));
    }
  }

  lemma ChunkBuffer(apply: Applier, s: State, height: nat, c: Chunk)
    ensures var b := OnChunk(apply, s, height, c).buffer;
            b == s.buffer
            || (b == s.buffer[(height, c.index) := c] && |s.buffer| < 2048 && BufferedBytes(s.buffer) + |c.data| <= 134217728)
  {
    if s.manifest.Some? && s.manifest.value.height == height {
      TryKeepsBuffer(apply, s.(chunks := s.chunks[c.index := c]));
    }
  }

  lemma StepWithinLimits(apply: Applier, s: State, e: Event)
    requires WithinLimits(s.buffer)
    ensures WithinLimits(Handle(apply, s, e).buffer)
  {
    if e.ManifestArrives? {
      ManifestBuffer(apply, s, e.manifest);
      SmallerBuffer(Above(s.buffer, e.manifest.height), s.buffer);
    } else {
      ChunkBuffer(apply, s, e.height, e.chunk);
      ReplacedChunk(s.buffer, (e.height, e.chunk.index), e.chunk);
    }
  }

  /** Whatever arrives, at most 2048 chunks and 128 MiB ever wait. */
  lemma {:induction false} BufferStaysWithinLimits(apply: Applier, local: Local, events: seq<Event>)
    ensures WithinLimits(Run(apply, Fresh(local), events).buffer)
  {
    if events != [] {
      BufferStaysWithinLimits(apply, local, events[..|events| - 1]);
      StepWithinLimits(apply, Run(apply, Fresh(local), events[..|events| - 1]), events[|events| - 1]);
    }
  }
}
