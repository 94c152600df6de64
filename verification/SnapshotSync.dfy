/**
Snapshot assembly (the manifest and chunk arms of `src/network/mod.rs`): a manifest and its chunks
arrive in any order and any number of times; chunks that come first wait in a bounded buffer.
Applying a snapshot to the chain is the parameter `apply`.
*/
module SnapshotSync {
  import opened Common

  const MAX_BUFFERED_CHUNKS: nat := 2048
  const MAX_BUFFERED_BYTES: nat := 128 * 1024 * 1024

  datatype Manifest = Manifest(
    height: nat, chainId: Bytes, genesisHash: Bytes, tipHeight: nat, finalizedHeight: nat, finalizedHash: Bytes,
    chunkRoot: Bytes, chunkCount: nat, chunkHashes: seq<Bytes>)

  datatype Chunk = Chunk(index: nat, data: Bytes, hash: Bytes, proof: seq<Bytes>)

  /** What the assembly looks at in the local chain. */
  datatype Local = Local(chainId: Bytes, genesisHash: Bytes, height: nat, finalizedHeight: nat, finalizedHash: Bytes)

  /** `apply_snapshot`: the chain afterwards, or a failure. */
  type Applier = (Local, Manifest, seq<Chunk>) -> Option<Local>

  type Buffer = map<(nat, nat), Chunk>

  datatype Event = ManifestArrives(manifest: Manifest) | ChunkArrives(height: nat, chunk: Chunk)

  /** The pending session, the buffer, the chain, and every call made to `apply_snapshot`. */
  datatype State = State(
    manifest: Option<Manifest>, chunks: map<nat, Chunk>, buffer: Buffer, local: Local,
    applied: seq<(Manifest, seq<Chunk>)>)

  /** The tests a manifest must pass. */
  predicate Acceptable(local: Local, m: Manifest)
  {
    && m.height > local.height
    && m.chainId == local.chainId
    && m.genesisHash == local.genesisHash
    && m.chunkRoot != []
    && m.chunkCount != 0 && |m.chunkHashes| == m.chunkCount
    && !(m.height > m.tipHeight && m.tipHeight != 0)
    && !(local.finalizedHash != [] && local.finalizedHeight == m.finalizedHeight && local.finalizedHash != m.finalizedHash)
  }

  /** How many of the indices 0, 1, ... below `n` are present without a gap. */
  function Leading(chunks: map<nat, Chunk>, n: nat): (k: nat)
    ensures k <= n
    ensures forall i :: 0 <= i < k ==> i in chunks
    ensures k < n ==> k !in chunks
  {
    if n == 0 then 0
    else
      var k := Leading(chunks, n - 1);
      if k == n - 1 && n - 1 in chunks then n else k
  }

  function InOrder(chunks: map<nat, Chunk>, n: nat): (s: seq<Chunk>)
    requires forall i :: 0 <= i < n ==> i in chunks
    ensures |s| == n
  {
    seq(n, i requires 0 <= i < n => chunks[i])
  }

  /** The chunks from index `k` on. */
  function From(chunks: map<nat, Chunk>, k: nat): map<nat, Chunk>
  {
    map i | i in chunks && i >= k :: chunks[i]
  }

  /** When as many chunks are held as the manifest counts, take them out by index; a gap stops that, otherwise apply and close the session. */
  function TryApply(apply: Applier, s: State): State
    requires s.manifest.Some?
  {
    var m := s.manifest.value;
    if |s.chunks| != m.chunkCount then s
    else
      var k := Leading(s.chunks, m.chunkCount);
      var rest := From(s.chunks, k);
      if k < m.chunkCount then s.(chunks := rest)
      else
        var ordered := InOrder(s.chunks, m.chunkCount);
        var r := apply(s.local, m, ordered);
        s.(manifest := None, applied := s.applied + [(m, ordered)],
           chunks := if r.Some? then rest else map[], local := if r.Some? then r.value else s.local)
  }

  /** The buffered chunks of one height, by index. */
  function Drained(buffer: Buffer, height: nat): map<nat, Chunk>
  {
    map i | i in Indices(buffer, height) :: buffer[(height, i)]
  }

  function Indices(buffer: Buffer, height: nat): (s: set<nat>)
    ensures forall i :: i in s <==> (height, i) in buffer
  {
    var s := set k | k in buffer && k.0 == height :: k.1;
    assert forall i :: (height, i) in buffer ==> (height, i).1 in s;
    s
  }

  function Above(buffer: Buffer, height: nat): Buffer
  {
    map k | k in buffer && k.0 > height :: buffer[k]
  }

  function OnManifest(apply: Applier, s: State, m: Manifest): State
  {
    if !Acceptable(s.local, m) then s
    else
      var same := s.manifest.Some? && s.manifest.value.height == m.height && s.manifest.value.chunkRoot == m.chunkRoot;
      var kept := if same then s.chunks else map[];
      TryApply(apply, s.(manifest := Some(m), chunks := kept + Drained(s.buffer, m.height),
                         buffer := Above(s.buffer, m.height)))
  }

  ghost function BufferedBytes(buffer: Buffer): nat
  {
    if buffer == map[] then 0
    else
      var k :| k in buffer;
      |buffer[k].data| + BufferedBytes(buffer - {k})
  }

  ghost function OnChunk(apply: Applier, s: State, height: nat, c: Chunk): State
  {
    if s.manifest.Some? && s.manifest.value.height == height
    then TryApply(apply, s.(chunks := s.chunks[c.index := c]))
    else if |s.buffer| < MAX_BUFFERED_CHUNKS && BufferedBytes(s.buffer) + |c.data| <= MAX_BUFFERED_BYTES
    then s.(buffer := s.buffer[(height, c.index) := c])
    else s
  }

  ghost function Handle(apply: Applier, s: State, e: Event): State
  {
    match e
    case ManifestArrives(m) => OnManifest(apply, s, m)
    case ChunkArrives(h, c) => OnChunk(apply, s, h, c)
  }

  // ---------------------------------------------------------------------------
  // The event loop's variables

  /** Moves the buffered chunks of a height to the session, in any order; keeping only higher heights drops them and all stale ones. */
  method Drain(kept: map<nat, Chunk>, before: Buffer, height: nat) returns (chunks: map<nat, Chunk>, buffer: Buffer)
    requires forall k :: k in before ==> before[k].index == k.1
    ensures chunks == kept + Drained(before, height) && buffer == Above(before, height)
  {
    chunks := kept;
    var pending := Indices(before, height);
    ghost var moved: map<nat, Chunk> := map[];
    while pending != {}
      invariant moved.Keys == Indices(before, height) - pending && pending <= Indices(before, height)
      invariant forall i :: i in moved ==> moved[i] == before[(height, i)]
      invariant chunks == kept + moved
      decreases |pending|
    {
      var i :| i in pending;
      var c := before[(height, i)];
      UpdateUnion(kept, moved, i, c);
      chunks := chunks[c.index := c];
      moved := moved[i := c];
      pending := pending - {i};
    }
    assert moved == Drained(before, height);
    buffer := Above(before, height);
  }

  lemma UpdateUnion(a: map<nat, Chunk>, d: map<nat, Chunk>, i: nat, c: Chunk)
    ensures (a + d)[i := c] == a + d[i := c]
  {
  }

  class Assembler {
    var manifest: Option<Manifest>
    var chunks: map<nat, Chunk>
    var buffer: Buffer
    var local: Local
    var applied: seq<(Manifest, seq<Chunk>)>

    function View(): State
      reads this
    {
      State(manifest, chunks, buffer, local, applied)
    }

    /** Buffered chunks are filed under their own index. */
    ghost predicate Valid()
      reads this
    {
      forall k :: k in buffer ==> buffer[k].index == k.1
    }

    constructor (local: Local)
      ensures Valid() && View() == State(None, map[], map[], local, [])
    {
      manifest, chunks, buffer, applied := None, map[], map[], [];
      this.local := local;
    }

    /** The collection loop and the call to `apply_snapshot`. */
    method Complete(apply: Applier)
      requires manifest.Some?
      modifies this`manifest, this`chunks, this`local, this`applied
      ensures View() == TryApply(apply, old(View()))
    {
      var m := manifest.value;
      if |chunks| != m.chunkCount {
        return;
      }
      var ordered: seq<Chunk> := [];
      var complete := true;
      var index := 0;
      while index < m.chunkCount
        invariant 0 <= index <= m.chunkCount && |ordered| == index
        invariant manifest == old(manifest) && local == old(local) && applied == old(applied)
        invariant chunks == From(old(chunks), index)
        invariant forall i :: 0 <= i < index ==> i in old(chunks) && ordered[i] == old(chunks)[i]
        invariant !complete ==> index == Leading(old(chunks), m.chunkCount) < m.chunkCount
      {
        if index !in chunks {
          complete := false;
          break;
        }
        ordered := ordered + [chunks[index]];
        chunks := chunks - {index};
        index := index + 1;
      }
      if complete {
        assert ordered == InOrder(old(chunks), m.chunkCount);
        var r := apply(local, m, ordered);
        applied := applied + [(m, ordered)];
        if r.Some? {
          local := r.value;
        } else {
          chunks := map[];
        }
        manifest := None;
      }
    }

    method HandleManifest(apply: Applier, m: Manifest)
      requires Valid()
      modifies this
      ensures Valid() && View() == OnManifest(apply, old(View()), m)
    {
      if !Acceptable(local, m) {
        return;
      }
      var same := manifest.Some? && manifest.value.height == m.height && manifest.value.chunkRoot == m.chunkRoot;
      if !same {
        chunks := map[];
      }
      manifest := Some(m);
      chunks, buffer := Drain(chunks, buffer, m.height);
      Complete(apply);
    }

    method CountBytes() returns (sum: nat)
      ensures sum == BufferedBytes(buffer)
    {
      sum := 0;
      var rest := buffer;
      while rest != map[]
        invariant rest.Keys <= buffer.Keys
        invariant sum + BufferedBytes(rest) == BufferedBytes(buffer)
        decreases |rest|
      {
        var k :| k in rest;
        BytesRemove(rest, k);
        assert |rest - {k}| < |rest| by { assert (rest - {k}).Keys == rest.Keys - {k}; }
        sum := sum + |rest[k].data|;
        rest := rest - {k};
      }
    }

    method HandleChunk(apply: Applier, height: nat, c: Chunk)
      requires Valid()
      modifies this
      ensures Valid() && View() == OnChunk(apply, old(View()), height, c)
    {
      if !(manifest.Some? && manifest.value.height == height) {
        var bytes := CountBytes();
        if |buffer| < MAX_BUFFERED_CHUNKS && bytes + |c.data| <= MAX_BUFFERED_BYTES {
          buffer := buffer[(height, c.index) := c];
        }
        return;
      }
      chunks := chunks[c.index := c];
      Complete(apply);
    }
  }

  /** The byte count does not depend on the order in which entries are visited. */
  lemma {:induction false} BytesRemove(buffer: Buffer, k: (nat, nat))
    requires k in buffer
    ensures BufferedBytes(buffer) == |buffer[k].data| + BufferedBytes(buffer - {k})
    decreases |buffer|
  {
    var p :| p in buffer && BufferedBytes(buffer) == |buffer[p].data| + BufferedBytes(buffer - {p});
    if p != k {
      assert (buffer - {p}).Keys == buffer.Keys - {p} && (buffer - {k}).Keys == buffer.Keys - {k};
      BytesRemove(buffer - {p}, k);
      BytesRemove(buffer - {k}, p);
      assert buffer - {p} - {k} == buffer - {k} - {p};
    }
  }
}
