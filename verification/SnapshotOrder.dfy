/**
Delivery order does not matter to snapshot assembly: whatever was left over from earlier sessions,
one acceptable manifest and its chunks, in any order and with any repetition, lead to exactly one
application, with the chunks in index order, at the moment the last missing piece first arrives.
*/
module SnapshotOrder {
  import opened Common
  import opened SnapshotSync

  /** A snapshot to be assembled: its manifest, its chunks, and the chain before and after applying it. */
  datatype Plan = Plan(manifest: Manifest, chunks: seq<Chunk>, before: Local, after: Local)

  function TotalBytes(cs: seq<Chunk>): nat
  {
    if cs == [] then 0 else TotalBytes(cs[..|cs| - 1]) + |cs[|cs| - 1].data|
  }

  /** The manifest goes forward on this very chain, names its chunks, and contradicts no finalized block. */
  ghost predicate GoodManifest(local: Local, m: Manifest)
  {
    && m.height > local.height && m.chainId == local.chainId && m.genesisHash == local.genesisHash
    && m.chunkRoot != [] && m.chunkCount >= 1 && |m.chunkHashes| == m.chunkCount
    && (m.height <= m.tipHeight || m.tipHeight == 0)
    && (local.finalizedHash == [] || local.finalizedHeight != m.finalizedHeight || local.finalizedHash == m.finalizedHash)
  }

  /** A good manifest, one chunk for each index it counts, and an application that succeeds and raises the chain to the snapshot. */
  ghost predicate Good(apply: Applier, p: Plan)
  {
    && GoodManifest(p.before, p.manifest)
    && |p.chunks| == p.manifest.chunkCount
    && (forall i :: 0 <= i < |p.chunks| ==> p.chunks[i].index == i)
    && apply(p.before, p.manifest, p.chunks) == Some(p.after)
    && p.after.height >= p.manifest.height
  }

  /** What was left over: the chain is the plan's, no session of the plan's height is open, and what waits at that height belongs to the plan and leaves room for the rest, within 2048 chunks and 128 MiB. */
  ghost predicate Leftover(p: Plan, s: State)
  {
    && s.local == p.before
    && (s.manifest.Some? ==> s.manifest.value.height != p.manifest.height)
    && Files(p.chunks, p.manifest.height, AtHeight(s.buffer, p.manifest.height))
    && |Elsewhere(s.buffer, p.manifest.height)| + |p.chunks| <= 2048
    && BufferedBytes(Elsewhere(s.buffer, p.manifest.height)) + TotalBytes(p.chunks) <= 134217728
  }

  ghost predicate Piece(p: Plan, e: Event)
  {
    match e
    case ManifestArrives(m) => m == p.manifest
    case ChunkArrives(h, c) => h == p.manifest.height && c in p.chunks
  }

  ghost predicate AllPieces(p: Plan, events: seq<Event>)
  {
    forall e :: e in events ==> Piece(p, e)
  }

  ghost predicate SeenManifest(events: seq<Event>)
  {
    exists e :: e in events && e.ManifestArrives?
  }

  /** The chunk indices delivered so far. */
  ghost function Seen(events: seq<Event>): set<nat>
  {
    set e | e in events && e.ChunkArrives? :: e.chunk.index
  }

  /** Nothing is missing: the manifest has arrived, and every chunk has or was waiting. */
  ghost predicate Delivered(p: Plan, start: State, events: seq<Event>)
  {
    SeenManifest(events) && Indices(start.buffer, p.manifest.height) + Seen(events) == Upto(|p.chunks|)
  }

  ghost function Upto(n: nat): (s: set<nat>)
    ensures |s| == n
    ensures forall i :: i in s <==> 0 <= i < n
  {
    if n == 0 then {}
    else
      var rest := Upto(n - 1);
      assert n - 1 !in rest;
      rest + {n - 1}
  }

  ghost function Run(apply: Applier, start: State, events: seq<Event>): State
  {
    if events == [] then start
    else Handle(apply, Run(apply, start, events[..|events| - 1]), events[|events| - 1])
  }

  // ---------------------------------------------------------------------------
  // The buffer never overflows

  function AtHeight(buffer: Buffer, height: nat): Buffer
  {
    map k | k in buffer && k.0 == height :: buffer[k]
  }

  function Elsewhere(buffer: Buffer, height: nat): Buffer
  {
    map k | k in buffer && k.0 != height :: buffer[k]
  }

  /** Every buffered chunk is one of `cs`, filed under its height and index. */
  ghost predicate Files(cs: seq<Chunk>, height: nat, buffer: Buffer)
  {
    forall k :: k in buffer ==> k.0 == height && k.1 < |cs| && buffer[k] == cs[k.1]
  }

  lemma AddChunk(buffer: Buffer, k: (nat, nat), c: Chunk)
    requires k !in buffer
    ensures |buffer[k := c]| == |buffer| + 1
    ensures BufferedBytes(buffer[k := c]) == BufferedBytes(buffer) + |c.data|
  {
    var bigger := buffer[k := c];
    assert bigger.Keys == buffer.Keys + {k};
    assert bigger - {k} == buffer;
    BytesRemove(bigger, k);
  }

  /** Leaving out the last chunk. */
  lemma WithoutLast(cs: seq<Chunk>, height: nat, buffer: Buffer)
    requires cs != [] && Files(cs, height, buffer)
    ensures var n := |cs| - 1;
            && Files(cs[..n], height, buffer - {(height, n)})
            && |buffer| <= |buffer - {(height, n)}| + 1
            && BufferedBytes(buffer) <= BufferedBytes(buffer - {(height, n)}) + |cs[n].data|
  {
    var k := (height, |cs| - 1);
    var rest := buffer - {k};
    if k in buffer {
      assert rest[k := buffer[k]] == buffer;
      AddChunk(rest, k, buffer[k]);
    } else {
      assert rest == buffer;
    }
  }

  lemma {:induction false} BufferFits(cs: seq<Chunk>, height: nat, buffer: Buffer)
    requires Files(cs, height, buffer)
    ensures |buffer| <= |cs| && BufferedBytes(buffer) <= TotalBytes(cs)
    decreases |cs|
  {
    if cs == [] {
      assert buffer == map[];
    } else {
      WithoutLast(cs, height, buffer);
      BufferFits(cs[..|cs| - 1], height, buffer - {(height, |cs| - 1)});
    }
  }

  /** A buffer is its part at one height and the rest. */
  lemma {:induction false} BufferSplits(buffer: Buffer, height: nat)
    ensures |buffer| == |AtHeight(buffer, height)| + |Elsewhere(buffer, height)|
    ensures BufferedBytes(buffer) == BufferedBytes(AtHeight(buffer, height)) + BufferedBytes(Elsewhere(buffer, height))
    decreases |buffer|
  {
    if buffer == map[] {
      assert AtHeight(buffer, height) == map[] && Elsewhere(buffer, height) == map[];
    } else {
      var k :| k in buffer;
      var rest := buffer - {k};
      assert rest.Keys == buffer.Keys - {k} && rest[k := buffer[k]] == buffer;
      BufferSplits(rest, height);
      AddChunk(rest, k, buffer[k]);
      PartsWith(rest, height, k, buffer[k]);
    }
  }

  lemma PartsWith(rest: Buffer, height: nat, k: (nat, nat), c: Chunk)
    requires k !in rest
    ensures var b, a, e := rest[k := c], AtHeight(rest, height), Elsewhere(rest, height);
            && |AtHeight(b, height)| + |Elsewhere(b, height)| == |a| + |e| + 1
            && BufferedBytes(AtHeight(b, height)) + BufferedBytes(Elsewhere(b, height))
               == BufferedBytes(a) + BufferedBytes(e) + |c.data|
  {
    var b, a, e := rest[k := c], AtHeight(rest, height), Elsewhere(rest, height);
    if k.0 == height {
      assert AtHeight(b, height) == a[k := c] && Elsewhere(b, height) == e;
      AddChunk(a, k, c);
    } else {
      assert AtHeight(b, height) == a && Elsewhere(b, height) == e[k := c];
      AddChunk(e, k, c);
    }
  }

  /** A chunk of the plan that does not wait yet always finds room. */
  lemma RoomForNewChunk(p: Plan, buffer: Buffer, i: nat)
    requires i < |p.chunks| && (p.manifest.height, i) !in buffer
    requires Files(p.chunks, p.manifest.height, AtHeight(buffer, p.manifest.height))
    requires |Elsewhere(buffer, p.manifest.height)| + |p.chunks| <= 2048
    requires BufferedBytes(Elsewhere(buffer, p.manifest.height)) + TotalBytes(p.chunks) <= 134217728
    ensures |buffer| < MAX_BUFFERED_CHUNKS
    ensures BufferedBytes(buffer) + |p.chunks[i].data| <= MAX_BUFFERED_BYTES
  {
    var h, k := p.manifest.height, (p.manifest.height, i);
    var own := AtHeight(buffer, h);
    BufferSplits(buffer, h);
    BufferFits(p.chunks, h, own[k := p.chunks[i]]);
    AddChunk(own, k, p.chunks[i]);
  }

  // ---------------------------------------------------------------------------
  // One session

  /** The session's chunks when the indices in `s` have arrived. */
  ghost function Held(p: Plan, s: set<nat>): map<nat, Chunk>
  {
    map i | i in s && i < |p.chunks| :: p.chunks[i]
  }

  lemma FullSet(s: set<nat>, n: nat)
    requires forall i :: i in s ==> i < n
    ensures |s| <= n
    ensures |s| == n <==> s == Upto(n)
  {
    var all := Upto(n);
    assert s <= all;
    assert all == s + (all - s);
  }

  // ---------------------------------------------------------------------------
  // Runs

  /** Before the manifest: the plan's chunks in `s` wait beside what was left over. */
  ghost predicate Waiting(p: Plan, start: State, s: set<nat>, st: State)
  {
    var h := p.manifest.height;
    && st.manifest == start.manifest && st.chunks == start.chunks
    && Indices(st.buffer, h) == s && Files(p.chunks, h, AtHeight(st.buffer, h))
    && Elsewhere(st.buffer, h) == Elsewhere(start.buffer, h)
  }

  /** What the state is once the chunks in `s`, and perhaps the manifest, have arrived: waiting, collecting, or done for good. Chunks of higher snapshots stay. */
  ghost predicate Phase(p: Plan, start: State, manifest: bool, s: set<nat>, st: State)
  {
    && Above(st.buffer, p.manifest.height) == Above(start.buffer, p.manifest.height)
    && if manifest && s == Upto(|p.chunks|) then
         st.applied == start.applied + [(p.manifest, p.chunks)] && st.local == p.after && st.manifest.None?
       else
         && st.applied == start.applied && st.local == p.before
         && (if manifest then Collecting(p, start, s, st) else Waiting(p, start, s, st))
  }

  /** After it: the session holds the chunks in `s`, and only higher snapshots' chunks wait. */
  ghost predicate Collecting(p: Plan, start: State, s: set<nat>, st: State)
  {
    st.manifest == Some(p.manifest) && st.chunks == Held(p, s) && st.buffer == Above(start.buffer, p.manifest.height)
  }

  ghost predicate InPlan(p: Plan, s: set<nat>)
  {
    forall i :: i in s ==> i < |p.chunks|
  }

  /** Trying to apply with the manifest known: nothing happens while a chunk is missing, else one application in index order. */
  lemma TryApplySession(apply: Applier, p: Plan, start: State, s: set<nat>, st: State)
    requires Good(apply, p) && InPlan(p, s)
    requires Collecting(p, start, s, st) && st.local == p.before && st.applied == start.applied
    requires Above(st.buffer, p.manifest.height) == Above(start.buffer, p.manifest.height)
    ensures Phase(p, start, true, s, TryApply(apply, st))
  {
    assert st.chunks.Keys == s;
    FullSet(s, |p.chunks|);
    if s == Upto(|p.chunks|) {
      assert Leading(st.chunks, |p.chunks|) == |p.chunks|;
      assert InOrder(st.chunks, |p.chunks|) == p.chunks;
    }
  }

  lemma DrainBuffer(p: Plan, s: set<nat>, buffer: Buffer)
    requires Indices(buffer, p.manifest.height) == s && Files(p.chunks, p.manifest.height, AtHeight(buffer, p.manifest.height))
    ensures Drained(buffer, p.manifest.height) == Held(p, s) && InPlan(p, s)
  {
    var h := p.manifest.height;
    forall i | i in s
      ensures i < |p.chunks| && buffer[(h, i)] == p.chunks[i]
    { assert (h, i) in AtHeight(buffer, h); }
  }

  lemma AboveTwice(buffer: Buffer, height: nat)
    ensures Above(Above(buffer, height), height) == Above(buffer, height)
    ensures Drained(Above(buffer, height), height) == map[]
  {
    assert Indices(Above(buffer, height), height) == {};
  }

  lemma ManifestAccepted(apply: Applier, p: Plan)
    requires Good(apply, p)
    ensures Acceptable(p.before, p.manifest) && !Acceptable(p.after, p.manifest)
  {
  }

  /** An acceptable manifest takes up what waits, whatever session was open before... */
  lemma ManifestOpens(apply: Applier, p: Plan, start: State, s: set<nat>, st: State)
    requires Good(apply, p) && Leftover(p, start) && Waiting(p, start, s, st)
    requires st.local == p.before
    ensures InPlan(p, s)
    ensures OnManifest(apply, st, p.manifest)
         == TryApply(apply, st.(manifest := Some(p.manifest), chunks := Held(p, s), buffer := Above(st.buffer, p.manifest.height)))
  {
    DrainBuffer(p, s, st.buffer);
    ManifestAccepted(apply, p);
    assert map[] + Held(p, s) == Held(p, s);
  }

  /** ...and its repetition leaves the session as it is. */
  lemma ManifestAgain(apply: Applier, p: Plan, start: State, s: set<nat>, st: State)
    requires Good(apply, p) && Collecting(p, start, s, st) && st.local == p.before
    ensures OnManifest(apply, st, p.manifest) == TryApply(apply, st)
  {
    AboveTwice(start.buffer, p.manifest.height);
    ManifestAccepted(apply, p);
    SameSessionAgain(apply, st, p.manifest);
  }

  lemma SameSessionAgain(apply: Applier, st: State, m: Manifest)
    requires st.manifest == Some(m) && Acceptable(st.local, m)
    requires Drained(st.buffer, m.height) == map[] && Above(st.buffer, m.height) == st.buffer
    ensures OnManifest(apply, st, m) == TryApply(apply, st)
  {
    assert st.chunks + map[] == st.chunks;
  }

  lemma ManifestStep(apply: Applier, p: Plan, start: State, manifest: bool, s: set<nat>, st: State)
    requires Good(apply, p) && Leftover(p, start) && InPlan(p, s) && Phase(p, start, manifest, s, st)
    ensures Phase(p, start, true, s, OnManifest(apply, st, p.manifest))
  {
    ManifestAccepted(apply, p);
    if !(manifest && s == Upto(|p.chunks|)) {
      if manifest {
        ManifestAgain(apply, p, start, s, st);
        TryApplySession(apply, p, start, s, st);
      } else {
        ManifestOpens(apply, p, start, s, st);
        AboveTwice(start.buffer, p.manifest.height);
        TryApplySession(apply, p, start, s,
                        st.(manifest := Some(p.manifest), chunks := Held(p, s), buffer := Above(st.buffer, p.manifest.height)));
      }
    }
  }

  /** A chunk of the open session. */
  lemma SessionChunk(apply: Applier, p: Plan, start: State, s: set<nat>, st: State, i: nat)
    requires Good(apply, p) && InPlan(p, s) && i < |p.chunks|
    requires s != Upto(|p.chunks|) && Phase(p, start, true, s, st)
    ensures Phase(p, start, true, s + {i}, OnChunk(apply, st, p.manifest.height, p.chunks[i]))
  {
    var st1 := st.(chunks := st.chunks[i := p.chunks[i]]);
    HeldNext(p, s, i);
    assert OnChunk(apply, st, p.manifest.height, p.chunks[i]) == TryApply(apply, st1);
    TryApplySession(apply, p, start, s + {i}, st1);
  }

  lemma HeldNext(p: Plan, s: set<nat>, i: nat)
    requires i < |p.chunks|
    ensures Held(p, s)[i := p.chunks[i]] == Held(p, s + {i})
  {
  }

  /** A chunk after the session is done may wait, at the plan's height, and changes nothing else. */
  lemma LateChunk(apply: Applier, p: Plan, st: State, c: Chunk)
    requires st.manifest.None?
    ensures var st' := OnChunk(apply, st, p.manifest.height, c);
            st' == st.(buffer := st'.buffer) && Above(st'.buffer, p.manifest.height) == Above(st.buffer, p.manifest.height)
  {
    var h := p.manifest.height;
    assert Above(st.buffer[(h, c.index) := c], h) == Above(st.buffer, h);
  }

  lemma ChunkStep(apply: Applier, p: Plan, start: State, manifest: bool, s: set<nat>, st: State, i: nat)
    requires Good(apply, p) && Leftover(p, start) && InPlan(p, s) && Phase(p, start, manifest, s, st) && i < |p.chunks|
    ensures Phase(p, start, manifest, s + {i}, OnChunk(apply, st, p.manifest.height, p.chunks[i]))
  {
    if manifest && s == Upto(|p.chunks|) {
      assert s + {i} == s;
      LateChunk(apply, p, st, p.chunks[i]);
    } else if manifest {
      SessionChunk(apply, p, start, s, st, i);
    } else {
      WaitingChunk(apply, p, start, s, st, i);
    }
  }

  lemma WaitingChunk(apply: Applier, p: Plan, start: State, s: set<nat>, st: State, i: nat)
    requires Good(apply, p) && Leftover(p, start) && i < |p.chunks| && Phase(p, start, false, s, st)
    ensures Phase(p, start, false, s + {i}, OnChunk(apply, st, p.manifest.height, p.chunks[i]))
  {
    var h, k, c := p.manifest.height, (p.manifest.height, i), p.chunks[i];
    if i in s {
      assert k in st.buffer && k in AtHeight(st.buffer, h);
      assert s + {i} == s && st.buffer[k := c] == st.buffer;
    } else {
      assert k !in st.buffer;
      RoomForNewChunk(p, st.buffer, i);
      BufferGains(p, start, s, st, i);
    }
  }

  lemma BufferGains(p: Plan, start: State, s: set<nat>, st: State, i: nat)
    requires Waiting(p, start, s, st) && i < |p.chunks|
    ensures var h := p.manifest.height;
            var st' := st.(buffer := st.buffer[(h, i) := p.chunks[i]]);
            Waiting(p, start, s + {i}, st') && Above(st'.buffer, h) == Above(st.buffer, h)
  {
    var h, c := p.manifest.height, p.chunks[i];
    var b := st.buffer[(h, i) := c];
    assert Indices(b, h) == s + {i};
    assert AtHeight(b, h) == AtHeight(st.buffer, h)[(h, i) := c];
    assert Elsewhere(b, h) == Elsewhere(st.buffer, h);
    assert Above(b, h) == Above(st.buffer, h);
  }

  lemma SeenStep(events: seq<Event>, e: Event)
    ensures SeenManifest(events + [e]) <==> SeenManifest(events) || e.ManifestArrives?
    ensures Seen(events + [e]) == if e.ChunkArrives? then Seen(events) + {e.chunk.index} else Seen(events)
  {
    var events' := events + [e];
    assert events'[|events|] == e;
    assert forall x :: x in events' <==> x in events || x == e;
  }

  lemma StartPhase(apply: Applier, p: Plan, start: State)
    requires Good(apply, p) && Leftover(p, start)
    ensures var s := Indices(start.buffer, p.manifest.height);
            InPlan(p, s) && Phase(p, start, false, s, start)
  {
    DrainBuffer(p, Indices(start.buffer, p.manifest.height), start.buffer);
  }

  /** One piece, whichever it is. */
  lemma PieceStep(apply: Applier, p: Plan, start: State, manifest: bool, s: set<nat>, st: State, e: Event)
    requires Good(apply, p) && Leftover(p, start) && InPlan(p, s) && Phase(p, start, manifest, s, st) && Piece(p, e)
    ensures var s' := if e.ChunkArrives? then s + {e.chunk.index} else s;
            InPlan(p, s') && Phase(p, start, manifest || e.ManifestArrives?, s', Handle(apply, st, e))
  {
    if e.ManifestArrives? {
      ManifestStep(apply, p, start, manifest, s, st);
    } else {
      var i :| 0 <= i < |p.chunks| && p.chunks[i] == e.chunk;
      ChunkStep(apply, p, start, manifest, s, st, i);
    }
  }

  /** The state is in the phase that the events so far call for. */
  ghost predicate InPhase(p: Plan, start: State, events: seq<Event>, st: State)
  {
    var s := Indices(start.buffer, p.manifest.height) + Seen(events);
    InPlan(p, s) && Phase(p, start, SeenManifest(events), s, st)
  }

  lemma SeenSum(s0: set<nat>, events: seq<Event>, e: Event)
    ensures s0 + Seen(events + [e]) == if e.ChunkArrives? then s0 + Seen(events) + {e.chunk.index} else s0 + Seen(events)
  {
    SeenStep(events, e);
  }

  lemma InPhaseNext(apply: Applier, p: Plan, start: State, events: seq<Event>, st: State, e: Event)
    requires Good(apply, p) && Leftover(p, start) && Piece(p, e) && InPhase(p, start, events, st)
    ensures InPhase(p, start, events + [e], Handle(apply, st, e))
  {
    var s0 := Indices(start.buffer, p.manifest.height);
    SeenStep(events, e);
    SeenSum(s0, events, e);
    PieceStep(apply, p, start, SeenManifest(events), s0 + Seen(events), st, e);
    SamePhase(p, start, SeenManifest(events) || e.ManifestArrives?,
              if e.ChunkArrives? then s0 + Seen(events) + {e.chunk.index} else s0 + Seen(events),
              events + [e], Handle(apply, st, e));
  }

  lemma SamePhase(p: Plan, start: State, manifest: bool, s: set<nat>, events: seq<Event>, st: State)
    requires manifest == SeenManifest(events) && s == Indices(start.buffer, p.manifest.height) + Seen(events)
    requires InPlan(p, s) && Phase(p, start, manifest, s, st)
    ensures InPhase(p, start, events, st)
  {
  }

  lemma {:induction false} PhaseRun(apply: Applier, p: Plan, start: State, events: seq<Event>)
    requires Good(apply, p) && Leftover(p, start) && AllPieces(p, events)
    ensures InPhase(p, start, events, Run(apply, start, events))
  {
    if events == [] {
      StartPhase(apply, p, start);
      assert Seen(events) == {} && !SeenManifest(events);
      assert Indices(start.buffer, p.manifest.height) + {} == Indices(start.buffer, p.manifest.height);
    } else {
      var init, e := events[..|events| - 1], events[|events| - 1];
      assert events == init + [e] && e in events;
      assert AllPieces(p, init) by { assert forall x :: x in init ==> x in events; }
      PhaseRun(apply, p, start, init);
      InPhaseNext(apply, p, start, init, Run(apply, start, init), e);
    }
  }

  /**
  Order independence: after any sequence of pieces of one good snapshot, whatever was left over
  before it, `apply_snapshot` has been called exactly once more, with all chunks in index order, if
  everything has been delivered, and not at all otherwise; and chunks waiting for a higher snapshot
  still wait.
  */
  lemma AppliedExactlyOnceWhenDelivered(apply: Applier, p: Plan, start: State, events: seq<Event>)
    requires Good(apply, p) && Leftover(p, start) && AllPieces(p, events)
    ensures Run(apply, start, events).applied
         == start.applied + if Delivered(p, start, events) then [(p.manifest, p.chunks)] else []
    ensures forall k: (nat, nat) :: k.0 > p.manifest.height ==>
              (k in Run(apply, start, events).buffer <==> k in start.buffer)
              && (k in start.buffer ==> Run(apply, start, events).buffer[k] == start.buffer[k])
  {
    PhaseRun(apply, p, start, events);
    var h, b := p.manifest.height, Run(apply, start, events).buffer;
    forall k: (nat, nat) | k.0 > h
      ensures (k in b <==> k in start.buffer) && (k in start.buffer ==> b[k] == start.buffer[k])
    { assert (k in b <==> k in Above(b, h)) && (k in start.buffer <==> k in Above(start.buffer, h)); }
  }

  /** A complete session whose application fails: it is logged, the session closes without its chunks, and the chain stays; the same manifest then starts over with what waits for it and nothing else. */
  lemma FailureStartsOver(apply: Applier, s: State, m: Manifest)
    requires s.manifest == Some(m) && Acceptable(s.local, m) && s.chunks.Keys == Upto(m.chunkCount)
    requires (forall i :: 0 <= i < m.chunkCount ==> i in s.chunks)
             && apply(s.local, m, seq(m.chunkCount, i requires 0 <= i < m.chunkCount => s.chunks[i])) == None
    ensures var s' := TryApply(apply, s);
            && s'.manifest == None && s'.chunks == map[] && s'.local == s.local && s'.buffer == s.buffer
            && s'.applied == s.applied + [(m, seq(m.chunkCount, i requires 0 <= i < m.chunkCount => s.chunks[i]))]
            && OnManifest(apply, s', m)
               == TryApply(apply, s'.(manifest := Some(m), chunks := Drained(s.buffer, m.height), buffer := Above(s.buffer, m.height)))
  {
    var ordered := seq(m.chunkCount, i requires 0 <= i < m.chunkCount => s.chunks[i]);
    assert |s.chunks| == m.chunkCount;
    assert Leading(s.chunks, m.chunkCount) == m.chunkCount;
    assert InOrder(s.chunks, m.chunkCount) == ordered;
    assert map[] + Drained(s.buffer, m.height) == Drained(s.buffer, m.height);
  }
}
