/**
The floor of the block store under concurrent prunes (`prune_below` of `src/core/block_store.rs`).
A prune checks the floor, drops the lock, and sets the floor without checking again, so a prune
overtaken by a higher one brings the floor down; this says exactly when, what it does to readers,
and that prunes which do not overlap never do it.
*/
module StoreFloor {
  import opened Common
  import FT = ForkTree
  import BS = BlockStore
  import opened StoreInterleaving

  // ---------------------------------------------------------------------------
  // Calls

  predicate BeginsPrune(a: Action, t: nat)
  {
    a.BeginPrune? && a.t == t
  }

  /** The thread's last call of `prune_below` among the first `n` steps. */
  function LastCall(actions: seq<Action>, n: nat, t: nat): (r: Option<nat>)
    requires n <= |actions|
    ensures r.Some? ==> r.value < n && BeginsPrune(actions[r.value], t)
  {
    if n == 0 then None
    else if BeginsPrune(actions[n - 1], t) then Some(n - 1)
    else LastCall(actions, n - 1, t)
  }

  /** The last step among the first `n` that completes a prune. */
  function LastFinish(actions: seq<Action>, n: nat): (r: Option<nat>)
    requires n <= |actions|
    ensures r.Some? ==> r.value < n && actions[r.value].FinishPrune?
    ensures forall i :: (if r.Some? then r.value < i else 0 <= i) && i < n ==> !actions[i].FinishPrune?
  {
    if n == 0 then None
    else if actions[n - 1].FinishPrune? then Some(n - 1)
    else LastFinish(actions, n - 1)
  }

  /** The argument of the call that step `j` completes. */
  function Target(actions: seq<Action>, j: nat): nat
    requires j < |actions| && actions[j].FinishPrune?
  {
    var call := LastCall(actions, j, actions[j].t);
    if call.Some? then actions[call.value].keepFrom else 0
  }

  /** Step `j` completes a prune that was called before the last completed one ended, and that one reached higher. */
  predicate Overtaken(actions: seq<Action>, j: nat)
    requires j < |actions|
  {
    && actions[j].FinishPrune?
    && var call, last := LastCall(actions, j, actions[j].t), LastFinish(actions, j);
    && call.Some? && last.Some? && call.value < last.value && Target(actions, j) < Target(actions, last.value)
  }

  ghost predicate Pruning(s: State, t: nat)
  {
    ThreadAt(s, t).Checked? || ThreadAt(s, t).Deleted?
  }

  /** A thread inside `prune_below` works for its last call, made when the floor was lower than its argument. */
  lemma {:induction false} PruningForCall(
    cfg: Config, genesis: FT.Block, states: seq<State>, actions: seq<Action>, n: nat, t: nat)
    requires IsRun(cfg, genesis, states, actions) && n <= |actions| && Pruning(states[n], t)
    ensures var call := LastCall(actions, n, t);
            && call.Some? && ThreadAt(states[n], t).keepFrom == actions[call.value].keepFrom
            && states[call.value].baseHeight < actions[call.value].keepFrom
  {
    if n > 0 {
      assert StepAt(cfg, states, actions, n - 1);
      if !BeginsPrune(actions[n - 1], t) {
        PruningForCall(cfg, genesis, states, actions, n - 1, t);
      }
    }
  }

  lemma FinishTarget(cfg: Config, genesis: FT.Block, states: seq<State>, actions: seq<Action>, j: nat)
    requires IsRun(cfg, genesis, states, actions) && j < |actions| && actions[j].FinishPrune?
    ensures states[j + 1].baseHeight == Target(actions, j)
    ensures var call := LastCall(actions, j, actions[j].t);
            call.Some? && states[call.value].baseHeight < Target(actions, j)
  {
    assert StepAt(cfg, states, actions, j);
    PruningForCall(cfg, genesis, states, actions, j, actions[j].t);
  }

  /** The floor is always the argument of the last completed prune. */
  lemma {:induction false} FloorIsLastTarget(
    cfg: Config, genesis: FT.Block, states: seq<State>, actions: seq<Action>, n: nat)
    requires IsRun(cfg, genesis, states, actions) && n <= |actions|
    ensures var last := LastFinish(actions, n);
            states[n].baseHeight == if last.Some? then Target(actions, last.value) else 0
  {
    if n > 0 {
      assert StepAt(cfg, states, actions, n - 1);
      if actions[n - 1].FinishPrune? {
        FinishTarget(cfg, genesis, states, actions, n - 1);
      } else {
        FloorIsLastTarget(cfg, genesis, states, actions, n - 1);
      }
    }
  }

  /** Between a call and its end with no prune completed meanwhile, the floor stays. */
  lemma {:induction false} FloorStays(
    cfg: Config, genesis: FT.Block, states: seq<State>, actions: seq<Action>, i: nat, j: nat)
    requires IsRun(cfg, genesis, states, actions) && i <= j <= |actions|
    requires forall k :: i <= k < j ==> !actions[k].FinishPrune?
    ensures states[j].baseHeight == states[i].baseHeight
    decreases j
  {
    if i < j {
      FloorStays(cfg, genesis, states, actions, i, j - 1);
      assert StepAt(cfg, states, actions, j - 1);
    }
  }

  /**
  In every run, a step lowers the floor if and only if it completes a prune overtaken by a higher
  one: its call came before the end of the last completed prune, whose argument is larger.
  */
  lemma FloorFallsIff(cfg: Config, genesis: FT.Block, states: seq<State>, actions: seq<Action>, j: nat)
    requires IsRun(cfg, genesis, states, actions) && j < |actions|
    ensures states[j + 1].baseHeight < states[j].baseHeight <==> Overtaken(actions, j)
  {
    FloorIsLastTarget(cfg, genesis, states, actions, j);
    assert StepAt(cfg, states, actions, j);
    if actions[j].FinishPrune? {
      FinishTarget(cfg, genesis, states, actions, j);
      var call, last := LastCall(actions, j, actions[j].t).value, LastFinish(actions, j);
      if last.None? || last.value < call {
        FloorStays(cfg, genesis, states, actions, call, j);
      }
    }
  }

  // ---------------------------------------------------------------------------
  // Readers

  /** Step `n` ends a read of height `h` with this answer. */
  predicate ReadEnds(states: seq<State>, actions: seq<Action>, n: nat, h: nat, r: Option<FT.Block>)
    requires n < |actions| < |states|
  {
    && (actions[n].BeginRead? || actions[n].LoadFromBackend? || actions[n].FinishRead?)
    && ThreadAt(states[n + 1], actions[n].t) == Returned(h, r)
  }

  /** In every run, a read that ends with a block above genesis gives one at or above the argument of the last completed prune. */
  lemma ReadsRespectLastPrune(
    cfg: Config, genesis: FT.Block, states: seq<State>, actions: seq<Action>, n: nat, h: nat, b: FT.Block)
    requires IsRun(cfg, genesis, states, actions) && n < |actions| && ReadEnds(states, actions, n, h, Some(b))
    ensures var last := LastFinish(actions, n);
            h == 0 || last.None? || h >= Target(actions, last.value)
    ensures h == 0 || h >= states[n].baseHeight
  {
    assert StepAt(cfg, states, actions, n);
    FloorIsLastTarget(cfg, genesis, states, actions, n);
  }

  lemma {:induction false} FloorKept(
    cfg: Config, genesis: FT.Block, states: seq<State>, actions: seq<Action>, i: nat, j: nat)
    requires IsRun(cfg, genesis, states, actions) && i <= j <= |actions|
    requires forall k :: i <= k < j ==> !Overtaken(actions, k)
    ensures states[i].baseHeight <= states[j].baseHeight
    decreases j
  {
    if i < j {
      FloorKept(cfg, genesis, states, actions, i, j - 1);
      FloorFallsIff(cfg, genesis, states, actions, j - 1);
    }
  }

  /** After a completed `prune_below(k)`, and until some prune ends overtaken, no read ends with a block strictly between genesis and k. */
  lemma ReadsStayAboveUntilOvertaken(
    cfg: Config, genesis: FT.Block, states: seq<State>, actions: seq<Action>, m: nat, n: nat, h: nat, b: FT.Block)
    requires IsRun(cfg, genesis, states, actions) && m < n < |actions|
    requires forall k :: m < k < n ==> !Overtaken(actions, k)
    requires actions[m].FinishPrune? && ReadEnds(states, actions, n, h, Some(b))
    ensures h == 0 || h >= Target(actions, m)
  {
    FinishTarget(cfg, genesis, states, actions, m);
    FloorKept(cfg, genesis, states, actions, m + 1, n);
    ReadsRespectLastPrune(cfg, genesis, states, actions, n, h, b);
  }

  // ---------------------------------------------------------------------------
  // Prunes that do not overlap

  ghost predicate PrunesSerially(s: State)
  {
    forall t, t' :: Pruning(s, t) && Pruning(s, t') ==> t == t'
  }

  /** A prune under way aims above the floor. */
  ghost predicate PrunesUpward(s: State)
  {
    forall t :: Pruning(s, t) ==> ThreadAt(s, t).keepFrom > s.baseHeight
  }

  lemma SerialStep(cfg: Config, s: State, a: Action)
    requires cfg.capacity > 0 && Enabled(cfg, s, a) && PrunesUpward(s) && PrunesSerially(s)
    ensures PrunesUpward(Do(cfg, s, a)) && s.baseHeight <= Do(cfg, s, a).baseHeight
  {
    var s' := Do(cfg, s, a);
    if a.FinishPrune? { assert Pruning(s, a.t); }
    forall t | Pruning(s', t)
      ensures ThreadAt(s', t).keepFrom > s'.baseHeight
    {
      if !(a.BeginPrune? && a.t == t) { assert Pruning(s, t); }
    }
  }

  /** If prunes never overlap, as under one outer lock, the floor never falls. */
  lemma {:induction false} SerialPrunesKeepFloor(
    cfg: Config, genesis: FT.Block, states: seq<State>, actions: seq<Action>, i: nat, j: nat)
    requires IsRun(cfg, genesis, states, actions) && i <= j <= |actions|
    requires forall k :: 0 <= k < |states| ==> PrunesSerially(states[k])
    ensures PrunesUpward(states[j]) && states[i].baseHeight <= states[j].baseHeight
    decreases j
  {
    if j > 0 {
      SerialPrunesKeepFloor(cfg, genesis, states, actions, if i < j then i else j - 1, j - 1);
      assert StepAt(cfg, states, actions, j - 1);
      SerialStep(cfg, states[j - 1], actions[j - 1]);
    }
  }

  /** If prunes never overlap, no read that ends after a completed `prune_below(k)` gives a block strictly between genesis and k. */
  lemma SerialReadsStayAbove(
    cfg: Config, genesis: FT.Block, states: seq<State>, actions: seq<Action>, m: nat, n: nat, h: nat, b: FT.Block)
    requires IsRun(cfg, genesis, states, actions) && m < n < |actions|
    requires forall k :: 0 <= k < |states| ==> PrunesSerially(states[k])
    requires actions[m].FinishPrune? && ReadEnds(states, actions, n, h, Some(b))
    ensures h == 0 || h >= Target(actions, m)
  {
    FinishTarget(cfg, genesis, states, actions, m);
    SerialPrunesKeepFloor(cfg, genesis, states, actions, m + 1, n);
    ReadsRespectLastPrune(cfg, genesis, states, actions, n, h, b);
  }

  // ---------------------------------------------------------------------------
  // A run in which overlapping prunes serve a pruned block

  /** One cache line, blocks persisted as they are appended. */
  const SMALL: Config := Config(1, true)

  /** Two blocks are appended and a reader has loaded the first; prunes to 1 and to 2 overlap and the lower one ends last; the reader ends, and another one reads. */
  function OverlapActions(b1: FT.Block, b2: FT.Block): seq<Action>
  {
    [BeginAppend(b1), FinishAppend, BeginAppend(b2), FinishAppend,
     BeginRead(3, 1), LoadFromBackend(3),
     BeginPrune(1, 1), BeginPrune(2, 2),
     DeleteFromBackend(2), FinishPrune(2), DeleteFromBackend(1), FinishPrune(1),
     FinishRead(3), BeginRead(4, 1)]
  }

  /** The state after `n` of these steps. */
  function OverlapState(g: FT.Block, b1: FT.Block, b2: FT.Block, n: nat): State
    requires n <= 14
  {
    var two := [BS.Line(2, b2)];
    var all := map[0 := g, 1 := b1, 2 := b2];
    var top := map[2 := b2];
    var grown := State(g, two, 3, 0, all, None, map[], [g, b1, b2]);
    match n
    case 0 => Start(g)
    case 1 => State(g, [], 1, 0, map[0 := g, 1 := b1], Some(b1), map[], [g])
    case 2 => State(g, [BS.Line(1, b1)], 2, 0, map[0 := g, 1 := b1], None, map[], [g, b1])
    case 3 => State(g, [BS.Line(1, b1)], 2, 0, all, Some(b2), map[], [g, b1])
    case 4 => grown
    case 5 => grown.(threads := map[3 := Missed(1)])
    case 6 => grown.(threads := map[3 := Loaded(1, b1)])
    case 7 => grown.(threads := map[3 := Loaded(1, b1), 1 := Checked(1)])
    case 8 => grown.(threads := map[3 := Loaded(1, b1), 1 := Checked(1), 2 := Checked(2)])
    case 9 => grown.(threads := map[3 := Loaded(1, b1), 1 := Checked(1), 2 := Deleted(2)], backend := top)
    case 10 => grown.(threads := map[3 := Loaded(1, b1), 1 := Checked(1), 2 := Idle], backend := top, baseHeight := 2)
    case 11 => grown.(threads := map[3 := Loaded(1, b1), 1 := Deleted(1), 2 := Idle], backend := top, baseHeight := 2)
    case 12 => grown.(threads := map[3 := Loaded(1, b1), 1 := Idle, 2 := Idle], backend := top, baseHeight := 1)
    case 13 => grown.(threads := map[3 := Returned(1, Some(b1)), 1 := Idle, 2 := Idle], backend := top, baseHeight := 1,
                      cache := [BS.Line(1, b1)])
    case _ => grown.(threads := map[3 := Returned(1, Some(b1)), 1 := Idle, 2 := Idle, 4 := Returned(1, Some(b1))],
                     backend := top, baseHeight := 1, cache := [BS.Line(1, b1)])
  }

  /** A one-line cache keeps the last line put. */
  lemma OneLine(x: BS.Line, l: BS.Line)
    ensures BS.PutLine([], 1, l) == [l]
    ensures BS.PutLine([x], 1, l) == [l]
    ensures BS.Find([l], x.height) == if l.height == x.height then Some(l.block) else None
    ensures BS.Filter([l], h => h >= x.height) == if l.height >= x.height then [l] else []
  {
    var none: seq<BS.Line> := [];
    assert [x][1..] == none && [l][1..] == none;
    var kept := BS.Filter([x], h => h != l.height);
    assert [l] + BS.Filter(none, h => h != l.height) == [l];
    assert ([l] + kept)[..1] == [l];
    assert [l] + BS.Filter(none, h => h >= x.height) == [l];
    assert |kept| == 0 ==> [l] + kept == [l];
  }

  predicate OverlapStepOk(g: FT.Block, b1: FT.Block, b2: FT.Block, n: nat)
    requires n < 14
  {
    var a, s := OverlapActions(b1, b2)[n], OverlapState(g, b1, b2, n);
    Enabled(SMALL, s, a) && OverlapState(g, b1, b2, n + 1) == Do(SMALL, s, a)
  }

  lemma OverlapAppends(g: FT.Block, b1: FT.Block, b2: FT.Block)
    requires b1.height == 1 && b2.height == 2
    ensures OverlapStepOk(g, b1, b2, 0) && OverlapStepOk(g, b1, b2, 1)
    ensures OverlapStepOk(g, b1, b2, 2) && OverlapStepOk(g, b1, b2, 3)
  {
    OneLine(BS.Line(1, b1), BS.Line(1, b1));
    OneLine(BS.Line(1, b1), BS.Line(2, b2));
  }

  lemma OverlapBegins(g: FT.Block, b1: FT.Block, b2: FT.Block)
    requires b1.height == 1 && b2.height == 2
    ensures OverlapStepOk(g, b1, b2, 4) && OverlapStepOk(g, b1, b2, 5)
    ensures OverlapStepOk(g, b1, b2, 6) && OverlapStepOk(g, b1, b2, 7)
  {
    OneLine(BS.Line(1, b1), BS.Line(2, b2));
  }

  lemma OverlapPrunes(g: FT.Block, b1: FT.Block, b2: FT.Block)
    requires b1.height == 1 && b2.height == 2
    ensures OverlapStepOk(g, b1, b2, 8) && OverlapStepOk(g, b1, b2, 9)
    ensures OverlapStepOk(g, b1, b2, 10) && OverlapStepOk(g, b1, b2, 11)
  {
    OverlapPruneHigh(g, b1, b2);
    OverlapPruneLow(g, b1, b2);
  }

  lemma OverlapPruneHigh(g: FT.Block, b1: FT.Block, b2: FT.Block)
    requires b1.height == 1 && b2.height == 2
    ensures OverlapStepOk(g, b1, b2, 8) && OverlapStepOk(g, b1, b2, 9)
  {
    OneLine(BS.Line(2, b1), BS.Line(2, b2));
    var s := OverlapState(g, b1, b2, 9);
    assert Do(SMALL, s, FinishPrune(2)).cache == BS.Filter([BS.Line(2, b2)], h => h >= 2);
  }

  lemma OverlapPruneLow(g: FT.Block, b1: FT.Block, b2: FT.Block)
    requires b1.height == 1 && b2.height == 2
    ensures OverlapStepOk(g, b1, b2, 10) && OverlapStepOk(g, b1, b2, 11)
  {
    OneLine(BS.Line(1, b1), BS.Line(2, b2));
    var s := OverlapState(g, b1, b2, 11);
    assert Do(SMALL, s, FinishPrune(1)).cache == BS.Filter([BS.Line(2, b2)], h => h >= 1);
  }

  lemma OverlapReads(g: FT.Block, b1: FT.Block, b2: FT.Block)
    requires b1.height == 1 && b2.height == 2
    ensures OverlapStepOk(g, b1, b2, 12) && OverlapStepOk(g, b1, b2, 13)
  {
    OneLine(BS.Line(2, b2), BS.Line(1, b1));
    OneLine(BS.Line(1, b1), BS.Line(1, b1));
  }

  function OverlapStates(g: FT.Block, b1: FT.Block, b2: FT.Block): (states: seq<State>)
    ensures |states| == 15
  {
    seq(15, n requires 0 <= n < 15 => OverlapState(g, b1, b2, n))
  }

  lemma OverlapAllSteps(g: FT.Block, b1: FT.Block, b2: FT.Block, n: nat)
    requires b1.height == 1 && b2.height == 2 && n < 14
    ensures OverlapStepOk(g, b1, b2, n)
  {
    if n < 4 {
      OverlapAppends(g, b1, b2);
    } else if n < 8 {
      OverlapBegins(g, b1, b2);
    } else if n < 12 {
      OverlapPrunes(g, b1, b2);
    } else {
      OverlapReads(g, b1, b2);
    }
  }

  lemma OverlapIsRun(g: FT.Block, b1: FT.Block, b2: FT.Block)
    requires b1.height == 1 && b2.height == 2
    ensures IsRun(SMALL, g, OverlapStates(g, b1, b2), OverlapActions(b1, b2))
  {
    forall n | 0 <= n < 14
      ensures StepAt(SMALL, OverlapStates(g, b1, b2), OverlapActions(b1, b2), n)
    { OverlapAllSteps(g, b1, b2, n); }
  }

  /**
  From genesis, `prune_below(2)` has completed at step 9, removing block 1 from the backend; yet a
  reader that had loaded block 1 is given it at step 12 and caches it, and the next reader is given
  it from the cache.
  */
  lemma OverlappingPrunesServePrunedBlock(g: FT.Block, b1: FT.Block, b2: FT.Block)
    requires b1.height == 1 && b2.height == 2
    ensures var states, actions := OverlapStates(g, b1, b2), OverlapActions(b1, b2);
            && IsRun(SMALL, g, states, actions)
            && actions[9] == FinishPrune(2) && Target(actions, 9) == 2 && states[10].baseHeight == 2
            && Overtaken(actions, 11) && states[12].baseHeight == 1 && 1 !in states[12].backend
            && ReadEnds(states, actions, 12, 1, Some(b1)) && ReadEnds(states, actions, 13, 1, Some(b1))
  {
    var states, actions := OverlapStates(g, b1, b2), OverlapActions(b1, b2);
    OverlapIsRun(g, b1, b2);
    assert states[10] == OverlapState(g, b1, b2, 10) && states[12] == OverlapState(g, b1, b2, 12);
    FinishTarget(SMALL, g, states, actions, 9);
    FloorFallsIff(SMALL, g, states, actions, 11);
  }
}
