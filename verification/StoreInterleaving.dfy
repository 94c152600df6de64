/**
The block store used by many threads at once (`src/core/block_store.rs`). `block_at` takes the lock,
drops it for the backend read and takes it again; `prune_below` does the same around the backend
deletion; `append` keeps the lock across its backend write, which unlocked backend accesses may
still fall into. Each of these pieces is one step, and steps of different threads mix freely.
*/
module StoreInterleaving {
  import opened Common
  import opened ForkTree
  import opened BlockStore

  /** Where a thread is inside `block_at` or `prune_below`. */
  datatype Thread =
    | Idle
    | Missed(height: nat)
    | Loaded(height: nat, block: Block)
    | Returned(height: nat, result: Option<Block>)
    | Checked(keepFrom: nat)
    | Deleted(keepFrom: nat)

  /** The shared fields, the block whose append holds the lock, the threads, and every block appended so far. */
  datatype State = State(
    genesis: Block, cache: seq<Line>, heightCount: nat, baseHeight: nat, backend: map<nat, Block>,
    appending: Option<Block>, threads: map<nat, Thread>, history: seq<Block>)

  /** The cache capacity, and whether `append` itself writes to the backend. */
  datatype Config = Config(capacity: nat, selfPersist: bool)

  datatype Action =
    | BeginRead(t: nat, height: nat)
    | LoadFromBackend(t: nat)
    | FinishRead(t: nat)
    | BeginAppend(block: Block)
    | FinishAppend
    | BeginPrune(t: nat, keepFrom: nat)
    | DeleteFromBackend(t: nat)
    | FinishPrune(t: nat)
    | PersistLater(height: nat)

  function ThreadAt(s: State, t: nat): Thread
  {
    if t in s.threads then s.threads[t] else Idle
  }

  function With(s: State, t: nat, at: Thread): State { s.(threads := s.threads[t := at]) }

  /** A step that takes the lock waits while an append holds it; prunes keep at most the blocks there are. */
  predicate Enabled(cfg: Config, s: State, a: Action)
  {
    match a
    case BeginRead(t, _) => s.appending.None? && (ThreadAt(s, t).Idle? || ThreadAt(s, t).Returned?)
    case LoadFromBackend(t) => ThreadAt(s, t).Missed?
    case FinishRead(t) => s.appending.None? && ThreadAt(s, t).Loaded?
    case BeginAppend(b) => s.appending.None? && b.height == s.heightCount
    case FinishAppend => s.appending.Some?
    case BeginPrune(t, k) => s.appending.None? && ThreadAt(s, t).Idle? && s.baseHeight < k <= s.heightCount
    case DeleteFromBackend(t) => ThreadAt(s, t).Checked?
    case FinishPrune(t) => s.appending.None? && ThreadAt(s, t).Deleted?
    case PersistLater(h) => !cfg.selfPersist && h < |s.history|
  }

  function Do(cfg: Config, s: State, a: Action): State
    requires cfg.capacity > 0 && Enabled(cfg, s, a)
  {
    match a
    case BeginRead(t, h) =>
      if h == 0 then With(s, t, Returned(0, Some(s.genesis)))
      else if h >= s.heightCount || h < s.baseHeight then With(s, t, Returned(h, None))
      else
        var hit := Find(s.cache, h);
        if hit.None? then With(s, t, Missed(h))
        else With(s.(cache := PutLine(s.cache, cfg.capacity, Line(h, hit.value))), t, Returned(h, hit))
    case LoadFromBackend(t) =>
      var h := ThreadAt(s, t).height;
      if h in s.backend then With(s, t, Loaded(h, s.backend[h])) else With(s, t, Returned(h, None))
    case FinishRead(t) =>
      var h, b := ThreadAt(s, t).height, ThreadAt(s, t).block;
      if h >= s.heightCount || h < s.baseHeight then With(s, t, Returned(h, None))
      else With(s.(cache := PutLine(s.cache, cfg.capacity, Line(h, b))), t, Returned(h, Some(b)))
    case BeginAppend(b) =>
      s.(appending := Some(b), backend := if cfg.selfPersist then s.backend[b.height := b] else s.backend)
    case FinishAppend =>
      var b := s.appending.value;
      s.(appending := None, heightCount := s.heightCount + 1, history := s.history + [b],
         genesis := if b.height == 0 then b else s.genesis,
         cache := if b.height == 0 then s.cache else PutLine(s.cache, cfg.capacity, Line(b.height, b)))
    case BeginPrune(t, k) => With(s, t, Checked(k))
    case DeleteFromBackend(t) =>
      var k := ThreadAt(s, t).keepFrom;
      With(s.(backend := map h | h in s.backend && h >= k :: s.backend[h]), t, Deleted(k))
    case FinishPrune(t) =>
      var k := ThreadAt(s, t).keepFrom;
      With(s.(baseHeight := k, cache := Filter(s.cache, h => h >= k)), t, Idle)
    case PersistLater(h) => s.(backend := s.backend[h := s.history[h]])
  }

  // ---------------------------------------------------------------------------
  // Invariant

  /** `b` is the block that was appended at height `h`. */
  predicate AppendedAt(s: State, h: nat, b: Block)
  {
    h < |s.history| && s.history[h] == b
  }

  predicate ThreadOk(s: State, th: Thread)
  {
    match th
    case Idle => true
    case Missed(h) => 0 < h < |s.history|
    case Loaded(h, b) => 0 < h && AppendedAt(s, h, b)
    case Returned(h, r) => r.Some? ==> AppendedAt(s, h, r.value)
    case Checked(k) => k <= |s.history|
    case Deleted(k) => k <= |s.history|
  }

  ghost predicate Inv(s: State)
  {
    && s.heightCount == |s.history| && 0 < |s.history| && s.baseHeight <= |s.history|
    && s.genesis == s.history[0]
    && (s.appending.Some? ==> s.appending.value.height == |s.history|)
    && (forall l :: l in s.cache ==> 0 < l.height && l.height >= s.baseHeight && AppendedAt(s, l.height, l.block))
    && (forall h :: h in s.backend ==>
          AppendedAt(s, h, s.backend[h]) || (h == |s.history| && s.appending == Some(s.backend[h])))
    && (forall t :: t in s.threads ==> ThreadOk(s, s.threads[t]))
  }

  lemma CacheStep(s: State, cfg: Config, l: Line)
    requires Inv(s) && cfg.capacity > 0
    requires 0 < l.height && l.height >= s.baseHeight && AppendedAt(s, l.height, l.block)
    ensures forall x :: x in PutLine(s.cache, cfg.capacity, l) ==>
              0 < x.height && x.height >= s.baseHeight && AppendedAt(s, x.height, x.block)
  {
  }

  lemma BeginReadInv(cfg: Config, s: State, t: nat, h: nat)
    requires cfg.capacity > 0 && Inv(s) && Enabled(cfg, s, BeginRead(t, h))
    ensures Inv(Do(cfg, s, BeginRead(t, h)))
  {
    FoundIsCached(s.cache, h);
    if 0 < h < s.heightCount && h >= s.baseHeight && Find(s.cache, h).Some? {
      CacheStep(s, cfg, Line(h, Find(s.cache, h).value));
    }
  }

  lemma FinishReadInv(cfg: Config, s: State, t: nat)
    requires cfg.capacity > 0 && Inv(s) && Enabled(cfg, s, FinishRead(t))
    ensures Inv(Do(cfg, s, FinishRead(t)))
  {
    var th := ThreadAt(s, t);
    if th.height < s.heightCount && th.height >= s.baseHeight { CacheStep(s, cfg, Line(th.height, th.block)); }
  }

  lemma PruneInv(cfg: Config, s: State, a: Action)
    requires cfg.capacity > 0 && Inv(s) && Enabled(cfg, s, a)
    requires a.BeginPrune? || a.DeleteFromBackend? || a.FinishPrune?
    ensures Inv(Do(cfg, s, a))
  {
  }

  lemma StepInv(cfg: Config, s: State, a: Action)
    requires cfg.capacity > 0 && Inv(s) && Enabled(cfg, s, a)
    ensures Inv(Do(cfg, s, a))
  {
    match a
    case BeginRead(t, h) => BeginReadInv(cfg, s, t, h);
    case LoadFromBackend(t) =>
    case FinishRead(t) => FinishReadInv(cfg, s, t);
    case BeginAppend(b) =>
    case FinishAppend => FinishAppendInv(cfg, s);
    case BeginPrune(t, k) => PruneInv(cfg, s, a);
    case DeleteFromBackend(t) => PruneInv(cfg, s, a);
    case FinishPrune(t) => PruneInv(cfg, s, a);
    case PersistLater(h) =>
  }

  lemma FinishAppendInv(cfg: Config, s: State)
    requires cfg.capacity > 0 && Inv(s) && s.appending.Some?
    ensures Inv(Do(cfg, s, FinishAppend))
  {
    var s' := Do(cfg, s, FinishAppend);
    assert forall h, b :: AppendedAt(s, h, b) ==> AppendedAt(s', h, b);
    assert AppendedAt(s', |s.history|, s.appending.value);
  }

  // ---------------------------------------------------------------------------
  // Runs

  /** A store holding only genesis, no thread active. */
  function Start(genesis: Block): State
  {
    State(genesis, [], 1, 0, map[0 := genesis], None, map[], [genesis])
  }

  ghost predicate StepAt(cfg: Config, states: seq<State>, actions: seq<Action>, i: nat)
    requires cfg.capacity > 0 && i < |actions| < |states|
  {
    Enabled(cfg, states[i], actions[i]) && states[i + 1] == Do(cfg, states[i], actions[i])
  }

  ghost predicate IsRun(cfg: Config, genesis: Block, states: seq<State>, actions: seq<Action>)
  {
    && cfg.capacity > 0 && |states| == |actions| + 1 && states[0] == Start(genesis)
    && (forall i :: 0 <= i < |actions| ==> StepAt(cfg, states, actions, i))
  }

  lemma {:induction false} RunInv(cfg: Config, genesis: Block, states: seq<State>, actions: seq<Action>, i: nat)
    requires IsRun(cfg, genesis, states, actions) && i <= |actions|
    ensures Inv(states[i])
  {
    if i > 0 {
      RunInv(cfg, genesis, states, actions, i - 1);
      assert StepAt(cfg, states, actions, i - 1);
      StepInv(cfg, states[i - 1], actions[i - 1]);
    }
  }

  lemma {:induction false} HistoryGrows(
    cfg: Config, genesis: Block, states: seq<State>, actions: seq<Action>, i: nat, j: nat)
    requires IsRun(cfg, genesis, states, actions) && i <= j <= |actions|
    ensures states[i].history <= states[j].history
    decreases j
  {
    if i < j {
      HistoryGrows(cfg, genesis, states, actions, i, j - 1);
      assert StepAt(cfg, states, actions, j - 1);
    }
  }

  /**
  In every interleaving of any number of readers, appends and prunes, whatever the cache size and
  whether or not appends persist: a block handed to a reader for a height is the one appended at
  that height, now and for good, and no cached height is below the current floor.
  */
  lemma ReadersSeeAppendedBlocks(
    cfg: Config, genesis: Block, states: seq<State>, actions: seq<Action>, i: nat, j: nat, t: nat)
    requires IsRun(cfg, genesis, states, actions) && i <= j <= |actions|
    ensures forall h, b :: ThreadAt(states[i], t) == Returned(h, Some(b)) ==> AppendedAt(states[j], h, b)
    ensures forall l :: l in states[i].cache ==> l.height >= states[i].baseHeight
  {
    RunInv(cfg, genesis, states, actions, i);
    HistoryGrows(cfg, genesis, states, actions, i, j);
    forall h, b | ThreadAt(states[i], t) == Returned(h, Some(b))
      ensures AppendedAt(states[j], h, b)
    { assert AppendedAt(states[i], h, b); }
  }

  /**
  A read that no other step comes between: genesis at height 0, nothing outside the floor and the
  head, and inside them the block appended there, whether it comes from the cache or the backend.
  */
  lemma ReadAloneIsExact(
    cfg: Config, genesis: Block, states: seq<State>, actions: seq<Action>, n: nat, t: nat, h: nat)
    requires IsRun(cfg, genesis, states, actions) && n <= |actions| && Enabled(cfg, states[n], BeginRead(t, h))
    requires states[n].baseHeight <= h < states[n].heightCount ==> h in states[n].backend
    ensures |states[n].history| > 0
    ensures var s := states[n];
            var inside := 0 < h && s.baseHeight <= h < |s.history|;
            var s1 := Do(cfg, s, BeginRead(t, h));
            if h == 0 || !inside || ThreadAt(s1, t).Returned? then
              ThreadAt(s1, t) == Returned(h, if h == 0 || inside then Some(s.history[h]) else None)
            else
              && Enabled(cfg, s1, LoadFromBackend(t))
              && var s2 := Do(cfg, s1, LoadFromBackend(t));
              && Enabled(cfg, s2, FinishRead(t))
              && ThreadAt(Do(cfg, s2, FinishRead(t)), t) == Returned(h, Some(s.history[h]))
  {
    RunInv(cfg, genesis, states, actions, n);
    FoundIsCached(states[n].cache, h);
  }
}
