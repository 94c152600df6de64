/**
Governance over whole runs: tallies are the snapshot stake of the accepted ballots, a proposal's
life is Active, then Passed and Executed, or Rejected, and an id is executed at most once, after a
vote that won and no earlier than the delay allows.
*/
module GovernanceRuns {
  import opened Common
  import opened Hashing
  import opened Governance

  type Encoder = Kind -> Bytes

  /** A call; a block also fixes the order in which the proposals it executes are visited. */
  datatype Op =
    | Submit(height: nat, proposer: Bytes, kind: Kind, epochLength: nat, snapshot: map<Bytes, nat>)
    | Vote(height: nat, voter: Bytes, id: Bytes, choice: Choice)
    | Block(height: nat, totalStake: nat, epochLength: nat, order: seq<Bytes>)

  function IdOf(h: Sha3, encode: Encoder, op: Op): Bytes
    requires op.Submit?
  {
    h(IdSeed(encode, op.proposer, op.height, op.kind))
  }

  /** The operation opens a proposal under `id`. */
  predicate Opens(h: Sha3, encode: Encoder, op: Op, id: Bytes)
  {
    op.Submit? && KindError(op.kind).None? && IdOf(h, encode, op) == id
  }

  /** The operation is a ballot for `id` that is counted. */
  predicate Casts(g: Gov, op: Op, id: Bytes)
  {
    op.Vote? && op.id == id && VoteError(g, op.voter, id, op.height).None?
  }

  ghost predicate Enabled(g: Gov, op: Op)
  {
    match op
    case Submit(_, _, _, _, _) => true
    case Vote(_, _, _, _) => true
    case Block(height, totalStake, epochLength, order) =>
      Divides(g.proposals, height, totalStake, epochLength) && Lists(order, DueIds(g.proposals, height))
  }

  ghost function Next(h: Sha3, encode: Encoder, g: Gov, op: Op): Gov
    requires Enabled(g, op)
  {
    match op
    case Submit(height, proposer, kind, epochLength, snapshot) =>
      if KindError(kind).Some? then g
      else
        var id := IdOf(h, encode, op);
        g.(proposals := g.proposals[id := Opened(id, proposer, kind, height, epochLength, snapshot)])
    case Vote(height, voter, id, choice) =>
      if VoteError(g, voter, id, height).Some? then g
      else g.(proposals := g.proposals[id := Counted(g.proposals[id], voter, choice)])
    case Block(height, totalStake, epochLength, order) =>
      Gov(SettleAll(g.proposals, height, totalStake, epochLength), g.executed + order)
  }

  ghost predicate StepAt(h: Sha3, encode: Encoder, states: seq<Gov>, ops: seq<Op>, i: nat)
    requires i < |ops| < |states|
  {
    Enabled(states[i], ops[i]) && states[i + 1] == Next(h, encode, states[i], ops[i])
  }

  /** `states` is the run of `ops` from no proposals. */
  ghost predicate IsRun(h: Sha3, encode: Encoder, states: seq<Gov>, ops: seq<Op>)
  {
    && |states| == |ops| + 1
    && states[0] == Gov(map[], [])
    && (forall i :: 0 <= i < |ops| ==> StepAt(h, encode, states, ops, i))
  }

  /** Heights never fall along the run. */
  ghost predicate HeightsRise(ops: seq<Op>)
  {
    forall i, j :: 0 <= i < j < |ops| ==> ops[i].height <= ops[j].height
  }

  // ---------------------------------------------------------------------------
  // Ids

  ghost predicate SameId(h: Sha3, encode: Encoder, a: Op, b: Op)
  {
    a.Submit? && b.Submit? && IdOf(h, encode, a) == IdOf(h, encode, b)
  }

  /** Submissions that share an id were made at one height. */
  ghost predicate OneHeightPerId(h: Sha3, encode: Encoder, ops: seq<Op>)
  {
    forall i, j :: 0 <= i < j < |ops| && SameId(h, encode, ops[i], ops[j]) ==> ops[i].height == ops[j].height
  }

  /** Everything hashed into an id during the run. */
  ghost function Seeds(encode: Encoder, ops: seq<Op>): set<Bytes>
  {
    set op | op in ops && op.Submit? :: IdSeed(encode, op.proposer, op.height, op.kind)
  }

  /** With addresses of one length, an id shared by two heights is a hash collision between two submissions of the run. */
  lemma IdsDetermineHeights(h: Sha3, encode: Encoder, ops: seq<Op>, addressLength: nat)
    requires forall op :: op in ops && op.Submit? ==> |op.proposer| == addressLength && op.height <= U64_MAX
    ensures OneHeightPerId(h, encode, ops) || Collision(h, Seeds(encode, ops), Seeds(encode, ops))
  {
    if !OneHeightPerId(h, encode, ops) {
      var i, j :| 0 <= i < j < |ops| && SameId(h, encode, ops[i], ops[j]) && ops[i].height != ops[j].height;
      var a, b := ops[i], ops[j];
      var x, y := IdSeed(encode, a.proposer, a.height, a.kind), IdSeed(encode, b.proposer, b.height, b.kind);
      assert a in ops && b in ops;
      assert x in Seeds(encode, ops) && y in Seeds(encode, ops);
      if x == y {
        SeedHeight(encode, a, addressLength);
        SeedHeight(encode, b, addressLength);
      }
      SameDigest(h, x, y, Seeds(encode, ops), Seeds(encode, ops));
    }
  }

  /** The height can be read back from what is hashed. */
  lemma SeedHeight(encode: Encoder, op: Op, n: nat)
    requires op.Submit? && |op.proposer| == n && op.height <= U64_MAX
    ensures var seed := IdSeed(encode, op.proposer, op.height, op.kind);
            |seed| >= n + 8 && FromLittleEndian(seed[n..n + 8]) == op.height
  {
    var seed := IdSeed(encode, op.proposer, op.height, op.kind);
    assert seed[n..n + 8] == LittleEndian(op.height, 8);
    assert ByteRange(4) == 0x1_0000_0000;
    assert ByteRange(8) == U64_MAX + 1;
    LittleEndianInverse(op.height, 8);
  }

  // ---------------------------------------------------------------------------
  // Tallies

  /** The snapshot stake of a set of voters. */
  ghost function StakeOf(snapshot: map<Bytes, nat>, s: set<Bytes>): nat
  {
    if s == {} then 0
    else
      var v :| v in s;
      (if v in snapshot then snapshot[v] else 0) + StakeOf(snapshot, s - {v})
  }

  lemma {:induction false} StakeRemove(snapshot: map<Bytes, nat>, s: set<Bytes>, v: Bytes)
    requires v in s
    ensures StakeOf(snapshot, s) == (if v in snapshot then snapshot[v] else 0) + StakeOf(snapshot, s - {v})
    decreases |s|
  {
    var w :| w in s && StakeOf(snapshot, s) == (if w in snapshot then snapshot[w] else 0) + StakeOf(snapshot, s - {w});
    if w != v {
      StakeRemove(snapshot, s - {w}, v);
      StakeRemove(snapshot, s - {v}, w);
      assert s - {w} - {v} == s - {v} - {w};
    }
  }

  lemma StakeAdd(snapshot: map<Bytes, nat>, s: set<Bytes>, v: Bytes)
    requires v !in s && v in snapshot
    ensures StakeOf(snapshot, s + {v}) == StakeOf(snapshot, s) + snapshot[v]
  {
    StakeRemove(snapshot, s + {v}, v);
    assert s + {v} - {v} == s;
  }

  lemma {:induction false} StakeUnion(snapshot: map<Bytes, nat>, s: set<Bytes>, t: set<Bytes>)
    requires s !! t
    ensures StakeOf(snapshot, s + t) == StakeOf(snapshot, s) + StakeOf(snapshot, t)
    decreases |s|
  {
    if s == {} {
      assert s + t == t;
    } else {
      var v :| v in s;
      StakeRemove(snapshot, s, v);
      StakeRemove(snapshot, s + t, v);
      StakeUnion(snapshot, s - {v}, t);
      assert s + t - {v} == (s - {v}) + t;
    }
  }

  /** Who has had a ballot with this choice counted for `id` since it was last opened, after `n` operations. */
  ghost function Ballots(h: Sha3, encode: Encoder, states: seq<Gov>, ops: seq<Op>, n: nat, id: Bytes, choice: Choice): set<Bytes>
    requires n <= |ops| < |states|
  {
    if n == 0 then {}
    else
      var before := Ballots(h, encode, states, ops, n - 1, id, choice);
      var op := ops[n - 1];
      if Opens(h, encode, op, id) then {}
      else if Casts(states[n - 1], op, id) && op.choice == choice then before + {op.voter}
      else before
  }

  /** A proposal's counters are the snapshot stake of these two disjoint groups, and its voters are both groups. */
  ghost predicate Tallied(p: Proposal, pro: set<Bytes>, contra: set<Bytes>)
  {
    && pro !! contra && p.voters == pro + contra && p.voters <= p.snapshot.Keys
    && p.votesFor == StakeOf(p.snapshot, pro)
    && p.votesAgainst == StakeOf(p.snapshot, contra)
  }

  lemma CountedTallied(p: Proposal, pro: set<Bytes>, contra: set<Bytes>, voter: Bytes, choice: Choice)
    requires Tallied(p, pro, contra) && voter !in p.voters && SnapshotStake(p, voter) > 0
    ensures if choice.For? then Tallied(Counted(p, voter, choice), pro + {voter}, contra)
            else Tallied(Counted(p, voter, choice), pro, contra + {voter})
  {
    if choice.For? {
      StakeAdd(p.snapshot, pro, voter);
    } else {
      StakeAdd(p.snapshot, contra, voter);
    }
  }

  /**
  At every point of every run, a proposal's two counters are exactly the snapshot stake of those
  whose For and Against ballots were counted since it was opened; nobody is in both groups.
  */
  lemma {:induction false} TalliesAreBallots(h: Sha3, encode: Encoder, states: seq<Gov>, ops: seq<Op>, n: nat, id: Bytes)
    requires IsRun(h, encode, states, ops) && n <= |ops| && id in states[n].proposals
    ensures Tallied(states[n].proposals[id], Ballots(h, encode, states, ops, n, id, For),
                    Ballots(h, encode, states, ops, n, id, Against))
  {
    if n > 0 {
      var g, op := states[n - 1], ops[n - 1];
      assert StepAt(h, encode, states, ops, n - 1);
      if !Opens(h, encode, op, id) {
        assert id in g.proposals;
        TalliesAreBallots(h, encode, states, ops, n - 1, id);
        if Casts(g, op, id) {
          CountedTallied(g.proposals[id], Ballots(h, encode, states, ops, n - 1, id, For),
                         Ballots(h, encode, states, ops, n - 1, id, Against), op.voter, op.choice);
        }
      }
    }
  }

  /** For plus Against is the snapshot stake of the recorded voters, hence at most that of the whole snapshot: no sum overflows unless the snapshot's own does. */
  lemma TallyIsVoterStake(h: Sha3, encode: Encoder, states: seq<Gov>, ops: seq<Op>, n: nat, id: Bytes)
    requires IsRun(h, encode, states, ops) && n <= |ops| && id in states[n].proposals
    ensures var p := states[n].proposals[id];
            && p.votesFor + p.votesAgainst == StakeOf(p.snapshot, p.voters)
            && p.votesFor + p.votesAgainst <= StakeOf(p.snapshot, p.snapshot.Keys)
  {
    var p := states[n].proposals[id];
    TalliesAreBallots(h, encode, states, ops, n, id);
    StakeUnion(p.snapshot, Ballots(h, encode, states, ops, n, id, For), Ballots(h, encode, states, ops, n, id, Against));
    var rest := p.snapshot.Keys - p.voters;
    StakeUnion(p.snapshot, p.voters, rest);
    assert p.voters + rest == p.snapshot.Keys;
  }

  // ---------------------------------------------------------------------------
  // Life of a proposal

  /** The part of a proposal that no block changes. */
  function Frozen(p: Proposal): Proposal
  {
    p.(status := Active, execution := None)
  }

  /** Nothing, or one step of Active to Passed or Rejected, or Passed to Executed; a decided proposal changes in nothing else. */
  predicate OneStep(p: Proposal, p': Proposal)
  {
    && (p.status != Active ==> Frozen(p') == Frozen(p) && p'.execution == p.execution)
    && (p'.status == p.status
        || (p.status == Active && (p'.status == Passed || p'.status == Rejected) && Frozen(p') == Frozen(p))
        || (p.status == Passed && p'.status == Executed))
  }

  ghost predicate OpenedAt(h: Sha3, encode: Encoder, ops: seq<Op>, j: nat, id: Bytes, height: nat)
    requires j < |ops|
  {
    Opens(h, encode, ops[j], id) && ops[j].height == height
  }

  /** What a stored proposal satisfies when the last block height seen is `now`. */
  ghost predicate Sound(p: Proposal, executed: seq<Bytes>, now: nat)
  {
    && p.createdAt <= p.deadline
    && p.status != Expired
    && (p.status != Active ==> p.deadline < now)
    && (p.status == Passed || p.status == Executed ==>
          p.execution.Some? && p.execution.value >= SaturatingAdd(p.deadline, MIN_EXECUTION_DELAY))
    && (p.status == Executed <==> p.id in executed)
  }

  ghost predicate SoundAt(h: Sha3, encode: Encoder, states: seq<Gov>, ops: seq<Op>, n: nat, id: Bytes)
    requires n <= |ops| < |states| && id in states[n].proposals
  {
    var p := states[n].proposals[id];
    && p.id == id
    && Sound(p, states[n].executed, Now(ops, n))
    && exists j :: 0 <= j < n && OpenedAt(h, encode, ops, j, id, p.createdAt)
  }

  /** The height of the last operation among the first `n`. */
  ghost function Now(ops: seq<Op>, n: nat): nat
    requires n <= |ops|
  {
    if n == 0 then 0 else ops[n - 1].height
  }

  lemma ReopenedSound(h: Sha3, encode: Encoder, states: seq<Gov>, ops: seq<Op>, n: nat, id: Bytes)
    requires IsRun(h, encode, states, ops) && HeightsRise(ops) && OneHeightPerId(h, encode, ops) && n < |ops|
    requires id in states[n].proposals && SoundAt(h, encode, states, ops, n, id) && Opens(h, encode, ops[n], id)
    ensures states[n].proposals[id].status == Active
  {
    var p := states[n].proposals[id];
    var j :| 0 <= j < n && OpenedAt(h, encode, ops, j, id, p.createdAt);
    assert SameId(h, encode, ops[j], ops[n]);
    assert ops[n - 1].height <= ops[n].height;
  }

  lemma SettleSound(p: Proposal, executed: seq<Bytes>, now: nat, op: Op, due: set<Bytes>)
    requires Sound(p, executed, now) && op.Block? && now <= op.height
    requires Lists(op.order, due) && (p.id in due <==> Due(p, op.height))
    ensures var p' := Settle(p, op.height, op.totalStake, op.epochLength);
            Sound(p', executed + op.order, op.height) && OneStep(p, p')
            && (p.id in executed ==> p.id !in op.order)
  {
    assert p.id in executed + op.order <==> p.id in executed || p.id in op.order;
  }

  lemma StepSound(h: Sha3, encode: Encoder, states: seq<Gov>, ops: seq<Op>, n: nat, id: Bytes)
    requires IsRun(h, encode, states, ops) && HeightsRise(ops) && OneHeightPerId(h, encode, ops) && n < |ops|
    requires id in states[n].proposals && SoundAt(h, encode, states, ops, n, id)
    ensures id in states[n + 1].proposals && SoundAt(h, encode, states, ops, n + 1, id)
    ensures OneStep(states[n].proposals[id], states[n + 1].proposals[id])
  {
    assert StepAt(h, encode, states, ops, n);
    var g, op, p := states[n], ops[n], states[n].proposals[id];
    var j :| 0 <= j < n && OpenedAt(h, encode, ops, j, id, p.createdAt);
    assert Now(ops, n) <= op.height by { assert ops[n - 1].height <= ops[n].height; }
    if Opens(h, encode, op, id) {
      ReopenedSound(h, encode, states, ops, n, id);
      assert OpenedAt(h, encode, ops, n, id, op.height);
    } else {
      assert OpenedAt(h, encode, ops, j, id, states[n + 1].proposals[id].createdAt);
      if op.Block? {
        SettleSound(p, g.executed, Now(ops, n), op, DueIds(g.proposals, op.height));
      }
    }
  }

  lemma FreshSound(h: Sha3, encode: Encoder, states: seq<Gov>, ops: seq<Op>, n: nat, id: Bytes)
    requires IsRun(h, encode, states, ops) && n < |ops|
    requires id !in states[n].proposals && id in states[n + 1].proposals && id !in states[n].executed
    ensures Opens(h, encode, ops[n], id) && SoundAt(h, encode, states, ops, n + 1, id)
  {
    assert StepAt(h, encode, states, ops, n);
    assert Opens(h, encode, ops[n], id);
    assert OpenedAt(h, encode, ops, n, id, ops[n].height);
  }

  ghost predicate NoRepeats(e: seq<Bytes>)
  {
    forall i, j :: 0 <= i < j < |e| ==> e[i] != e[j]
  }

  /** What is on the executed list is stored, once. */
  ghost predicate ExecutedStored(g: Gov)
  {
    NoRepeats(g.executed) && forall id :: id in g.executed ==> id in g.proposals
  }

  ghost predicate AllSound(h: Sha3, encode: Encoder, states: seq<Gov>, ops: seq<Op>, n: nat)
    requires n <= |ops| < |states|
  {
    && (forall id :: id in states[n].proposals ==> SoundAt(h, encode, states, ops, n, id))
    && ExecutedStored(states[n])
  }

  lemma NoRepeatsJoin(a: seq<Bytes>, b: seq<Bytes>)
    requires NoRepeats(a) && NoRepeats(b) && forall x :: x in a ==> x !in b
    ensures NoRepeats(a + b)
  {
    forall i, j | 0 <= i < j < |a + b| ensures (a + b)[i] != (a + b)[j] {
      if i < |a| <= j {
        assert a[i] in a && b[j - |a|] in b;
      }
    }
  }

  lemma ExecutedStep(h: Sha3, encode: Encoder, states: seq<Gov>, ops: seq<Op>, n: nat)
    requires IsRun(h, encode, states, ops) && n < |ops| && AllSound(h, encode, states, ops, n)
    ensures ExecutedStored(states[n + 1])
  {
    assert StepAt(h, encode, states, ops, n);
    var g, op := states[n], ops[n];
    if op.Block? {
      forall id | id in g.executed ensures id !in op.order {
        assert SoundAt(h, encode, states, ops, n, id);
      }
      NoRepeatsJoin(g.executed, op.order);
    }
  }

  lemma SoundNext(h: Sha3, encode: Encoder, states: seq<Gov>, ops: seq<Op>, n: nat, id: Bytes)
    requires IsRun(h, encode, states, ops) && HeightsRise(ops) && OneHeightPerId(h, encode, ops) && n < |ops|
    requires AllSound(h, encode, states, ops, n) && id in states[n + 1].proposals
    ensures SoundAt(h, encode, states, ops, n + 1, id)
  {
    if id in states[n].proposals {
      StepSound(h, encode, states, ops, n, id);
    } else {
      FreshSound(h, encode, states, ops, n, id);
    }
  }

  lemma {:induction false} RunSound(h: Sha3, encode: Encoder, states: seq<Gov>, ops: seq<Op>, n: nat)
    requires IsRun(h, encode, states, ops) && HeightsRise(ops) && OneHeightPerId(h, encode, ops) && n <= |ops|
    ensures AllSound(h, encode, states, ops, n)
  {
    if n > 0 {
      RunSound(h, encode, states, ops, n - 1);
      ExecutedStep(h, encode, states, ops, n - 1);
      forall id | id in states[n].proposals ensures SoundAt(h, encode, states, ops, n, id) {
        SoundNext(h, encode, states, ops, n - 1, id);
      }
    }
  }

  /** In every run a proposal can be opened again only while it is Active. */
  lemma ReopenedWhileActive(h: Sha3, encode: Encoder, states: seq<Gov>, ops: seq<Op>, n: nat, id: Bytes)
    requires IsRun(h, encode, states, ops) && HeightsRise(ops) && OneHeightPerId(h, encode, ops)
    requires n < |ops| && id in states[n].proposals && Opens(h, encode, ops[n], id)
    ensures states[n].proposals[id].status == Active
  {
    RunSound(h, encode, states, ops, n);
    ReopenedSound(h, encode, states, ops, n, id);
  }

  // ---------------------------------------------------------------------------
  // Ballots that are forgotten

  /** Over any run, a recorded voter is forgotten by an operation if and only if it opens the same id again. */
  lemma BallotForgottenIff(h: Sha3, encode: Encoder, states: seq<Gov>, ops: seq<Op>, n: nat, id: Bytes, voter: Bytes)
    requires IsRun(h, encode, states, ops) && n < |ops|
    requires id in states[n].proposals && voter in states[n].proposals[id].voters
    ensures id in states[n + 1].proposals
    ensures voter !in states[n + 1].proposals[id].voters <==> Opens(h, encode, ops[n], id)
  {
    assert StepAt(h, encode, states, ops, n);
  }

  /** Submit, vote, and submit again with one height, proposer and kind. */
  function ResubmitOps(h: Sha3, encode: Encoder, proposer: Bytes, kind: Kind): (ops: seq<Op>)
    ensures |ops| == 3
  {
    var submit := Submit(0, proposer, kind, 1, map[proposer := 10]);
    [submit, Vote(0, proposer, IdOf(h, encode, submit), For), submit]
  }

  ghost function ResubmitStates(h: Sha3, encode: Encoder, proposer: Bytes, kind: Kind): (states: seq<Gov>)
    ensures |states| == 4
  {
    var ops := ResubmitOps(h, encode, proposer, kind);
    var id := IdOf(h, encode, ops[0]);
    var p := Opened(id, proposer, kind, 0, 1, map[proposer := 10]);
    [Gov(map[], []), Gov(map[id := p], []), Gov(map[id := Counted(p, proposer, For)], []), Gov(map[id := p], [])]
  }

  /** In this run a counted ballot of stake 10 is gone after the third operation. */
  lemma ResubmissionForgetsVotes(h: Sha3, encode: Encoder, proposer: Bytes, kind: Kind)
    requires KindError(kind).None?
    ensures var ops, states := ResubmitOps(h, encode, proposer, kind), ResubmitStates(h, encode, proposer, kind);
            var id := IdOf(h, encode, ops[0]);
            && IsRun(h, encode, states, ops) && HeightsRise(ops) && OneHeightPerId(h, encode, ops)
            && id in states[2].proposals && states[2].proposals[id].votesFor == 10
            && id in states[3].proposals && states[3].proposals[id].votesFor == 0
  {
    var ops, states := ResubmitOps(h, encode, proposer, kind), ResubmitStates(h, encode, proposer, kind);
    assert StepAt(h, encode, states, ops, 0);
    assert StepAt(h, encode, states, ops, 1);
    assert StepAt(h, encode, states, ops, 2);
  }

  // ---------------------------------------------------------------------------
  // Decisions

  /** Every operation moves a proposal by at most one step of its life, and a decided proposal changes in nothing but its status. */
  lemma StatusMovesOneStep(h: Sha3, encode: Encoder, states: seq<Gov>, ops: seq<Op>, n: nat, id: Bytes)
    requires IsRun(h, encode, states, ops) && HeightsRise(ops) && OneHeightPerId(h, encode, ops)
    requires n < |ops| && id in states[n].proposals
    ensures id in states[n + 1].proposals && OneStep(states[n].proposals[id], states[n + 1].proposals[id])
  {
    RunSound(h, encode, states, ops, n);
    StepSound(h, encode, states, ops, n, id);
  }

  /** Over any stretch of a run: Rejected and Executed are final, Passed can only become Executed, and the ballots of a decided proposal stay as they were. */
  lemma {:induction false} DecisionsAreFinal(h: Sha3, encode: Encoder, states: seq<Gov>, ops: seq<Op>, i: nat, j: nat, id: Bytes)
    requires IsRun(h, encode, states, ops) && HeightsRise(ops) && OneHeightPerId(h, encode, ops)
    requires i <= j <= |ops| && id in states[i].proposals && states[i].proposals[id].status != Active
    ensures id in states[j].proposals
    ensures var p, p' := states[i].proposals[id], states[j].proposals[id];
            && p'.(status := p.status) == p
            && (p'.status == p.status || (p.status == Passed && p'.status == Executed))
    decreases j
  {
    if i < j {
      DecisionsAreFinal(h, encode, states, ops, i, j - 1, id);
      StatusMovesOneStep(h, encode, states, ops, j - 1, id);
    }
  }

  // ---------------------------------------------------------------------------
  // Execution

  /** At least half of a positive total stake was cast, and of the stake cast at least 67 percent for. */
  predicate Carried(pro: nat, contra: nat, total: nat)
  {
    total > 0 && pro + contra > 0 && 2 * (pro + contra) >= total && 100 * pro >= 67 * (pro + contra)
  }

  lemma WinsIsCarried(pro: nat, contra: nat, total: nat)
    ensures Wins(pro, contra, total) <==> Carried(pro, contra, total)
  {
  }

  /** Operation `j` is the block that found the ballots for `id` winning, after its deadline. */
  ghost predicate WonAt(h: Sha3, encode: Encoder, states: seq<Gov>, ops: seq<Op>, j: nat, id: Bytes, p: Proposal)
    requires j < |ops| < |states|
  {
    && ops[j].Block? && id in states[j].proposals && states[j].proposals[id] == Frozen(p)
    && ops[j].height > p.deadline
    && Carried(StakeOf(p.snapshot, Ballots(h, encode, states, ops, j, id, For)),
               StakeOf(p.snapshot, Ballots(h, encode, states, ops, j, id, Against)), ops[j].totalStake)
  }

  /** Operation `k` is the block that executes `id`, not before the delay has passed. */
  ghost predicate ExecutedAt(states: seq<Gov>, ops: seq<Op>, k: nat, id: Bytes, p: Proposal)
    requires k < |ops| < |states|
  {
    && ops[k].Block? && id in ops[k].order && id !in states[k].executed
    && ops[k].height >= SaturatingAdd(p.deadline, MIN_EXECUTION_DELAY)
  }

  lemma {:induction false} ActiveHasNoExecution(h: Sha3, encode: Encoder, states: seq<Gov>, ops: seq<Op>, n: nat, id: Bytes)
    requires IsRun(h, encode, states, ops) && n <= |ops|
    requires id in states[n].proposals && states[n].proposals[id].status == Active
    ensures states[n].proposals[id].execution == None
  {
    if n > 0 {
      assert StepAt(h, encode, states, ops, n - 1);
      if !Opens(h, encode, ops[n - 1], id) {
        ActiveHasNoExecution(h, encode, states, ops, n - 1, id);
      }
    }
  }

  /** The operation that turns a proposal from Active to Passed is a block at which it wins. */
  lemma PassingWins(h: Sha3, encode: Encoder, states: seq<Gov>, ops: seq<Op>, j: nat, id: Bytes)
    requires IsRun(h, encode, states, ops) && j < |ops|
    requires id in states[j].proposals && states[j].proposals[id].status == Active
    requires id in states[j + 1].proposals && states[j + 1].proposals[id].status == Passed
    ensures WonAt(h, encode, states, ops, j, id, states[j + 1].proposals[id])
  {
    assert StepAt(h, encode, states, ops, j);
    TalliesAreBallots(h, encode, states, ops, j, id);
    ActiveHasNoExecution(h, encode, states, ops, j, id);
    var p := states[j].proposals[id];
    WinsIsCarried(p.votesFor, p.votesAgainst, ops[j].totalStake);
  }

  /**
  The first block after the deadline decides a proposal: it passes exactly when the total stake is
  positive, the ballots hold at least half of it, and those For at least 67 percent of the ballots'
  stake; otherwise it is rejected. Until then it stays Active.
  */
  lemma BallotsDecide(h: Sha3, encode: Encoder, states: seq<Gov>, ops: seq<Op>, n: nat, id: Bytes)
    requires IsRun(h, encode, states, ops) && n < |ops| && ops[n].Block?
    requires id in states[n].proposals && states[n].proposals[id].status == Active
    ensures id in states[n + 1].proposals
    ensures var p, status := states[n].proposals[id], states[n + 1].proposals[id].status;
            var pro := StakeOf(p.snapshot, Ballots(h, encode, states, ops, n, id, For));
            var contra := StakeOf(p.snapshot, Ballots(h, encode, states, ops, n, id, Against));
            var total := ops[n].totalStake;
            && (status == Active <==> ops[n].height <= p.deadline)
            && (status == Passed <==>
                  ops[n].height > p.deadline && total > 0 && pro + contra > 0
                  && 2 * (pro + contra) >= total && 100 * pro >= 67 * (pro + contra))
            && (status == Rejected <==>
                  ops[n].height > p.deadline
                  && (total == 0 || pro + contra == 0 || 2 * (pro + contra) < total || 100 * pro < 67 * (pro + contra)))
  {
    assert StepAt(h, encode, states, ops, n);
    TalliesAreBallots(h, encode, states, ops, n, id);
    var p := states[n].proposals[id];
    WinsIsCarried(p.votesFor, p.votesAgainst, ops[n].totalStake);
  }

  /** With at least as much stake against as for, no proposal passes. */
  lemma OpposedNeverPasses(h: Sha3, encode: Encoder, states: seq<Gov>, ops: seq<Op>, n: nat, id: Bytes)
    requires IsRun(h, encode, states, ops) && n < |ops| && ops[n].Block?
    requires id in states[n].proposals && states[n].proposals[id].status == Active
    requires var p := states[n].proposals[id];
             StakeOf(p.snapshot, Ballots(h, encode, states, ops, n, id, Against))
             >= StakeOf(p.snapshot, Ballots(h, encode, states, ops, n, id, For))
    ensures id in states[n + 1].proposals && states[n + 1].proposals[id].status != Passed
  {
    BallotsDecide(h, encode, states, ops, n, id);
  }

  /** With half of the total stake cast For and none Against, it passes at the first block after the deadline. */
  lemma UnanimousHalfPasses(h: Sha3, encode: Encoder, states: seq<Gov>, ops: seq<Op>, n: nat, id: Bytes)
    requires IsRun(h, encode, states, ops) && n < |ops| && ops[n].Block?
    requires id in states[n].proposals && states[n].proposals[id].status == Active
    requires ops[n].height > states[n].proposals[id].deadline && ops[n].totalStake > 0
    requires Ballots(h, encode, states, ops, n, id, Against) == {}
    requires 2 * StakeOf(states[n].proposals[id].snapshot, Ballots(h, encode, states, ops, n, id, For)) >= ops[n].totalStake
    ensures id in states[n + 1].proposals && states[n + 1].proposals[id].status == Passed
  {
    BallotsDecide(h, encode, states, ops, n, id);
  }

  /** Moving stake from Against to For never turns a passed proposal into a rejected one. */
  lemma MoreForNeverHurts(p: Proposal, moved: nat, height: nat, totalStake: nat, epochLength: nat)
    requires p.status == Active && moved <= p.votesAgainst && height > p.deadline
    requires Settle(p, height, totalStake, epochLength).status == Passed
    ensures var p' := p.(votesFor := p.votesFor + moved, votesAgainst := p.votesAgainst - moved);
            Settle(p', height, totalStake, epochLength).status == Passed
  {
    WinsIsCarried(p.votesFor, p.votesAgainst, totalStake);
    WinsIsCarried(p.votesFor + moved, p.votesAgainst - moved, totalStake);
  }

  lemma {:induction false} PassedWasWon(h: Sha3, encode: Encoder, states: seq<Gov>, ops: seq<Op>, n: nat, id: Bytes)
    returns (j: nat)
    requires IsRun(h, encode, states, ops) && HeightsRise(ops) && OneHeightPerId(h, encode, ops)
    requires n <= |ops| && id in states[n].proposals && states[n].proposals[id].status == Passed
    ensures j < n && WonAt(h, encode, states, ops, j, id, states[n].proposals[id])
  {
    j := n - 1;
    assert StepAt(h, encode, states, ops, j);
    StatusMovesOneStep(h, encode, states, ops, j, id);
    if states[j].proposals[id].status == Passed {
      j := PassedWasWon(h, encode, states, ops, n - 1, id);
    } else {
      PassingWins(h, encode, states, ops, j, id);
    }
  }

  /** The operation that puts an id on the executed list is a block, after the delay, that found it Passed. */
  lemma ExecutingIsDue(h: Sha3, encode: Encoder, states: seq<Gov>, ops: seq<Op>, k: nat, id: Bytes)
    requires IsRun(h, encode, states, ops) && k < |ops| && AllSound(h, encode, states, ops, k)
    requires id !in states[k].executed && id in states[k + 1].executed
    ensures id in states[k].proposals && states[k].proposals[id].status == Passed
    ensures id in states[k + 1].proposals && Frozen(states[k + 1].proposals[id]) == Frozen(states[k].proposals[id])
    ensures ExecutedAt(states, ops, k, id, states[k].proposals[id])
  {
    assert StepAt(h, encode, states, ops, k);
    assert id in DueIds(states[k].proposals, ops[k].height);
    assert SoundAt(h, encode, states, ops, k, id);
  }

  lemma ExecutedListGrows(h: Sha3, encode: Encoder, states: seq<Gov>, ops: seq<Op>, k: nat, id: Bytes)
    requires IsRun(h, encode, states, ops) && k < |ops| && AllSound(h, encode, states, ops, k)
    requires id in states[k].executed
    ensures id in states[k].proposals && states[k].proposals[id].status == Executed
  {
    assert SoundAt(h, encode, states, ops, k, id);
  }

  /** The list of executed ids never repeats one, and every id on it was executed by a block after the delay, having won by the stake of its ballots at an earlier block. */
  lemma {:induction false} ExecutedOnceAfterWinning(h: Sha3, encode: Encoder, states: seq<Gov>, ops: seq<Op>, n: nat, id: Bytes)
    returns (j: nat, k: nat)
    requires IsRun(h, encode, states, ops) && HeightsRise(ops) && OneHeightPerId(h, encode, ops)
    requires n <= |ops| && id in states[n].executed
    ensures NoRepeats(states[n].executed)
    ensures j < k < n && id in states[n].proposals
    ensures WonAt(h, encode, states, ops, j, id, states[n].proposals[id])
    ensures ExecutedAt(states, ops, k, id, states[n].proposals[id])
  {
    RunSound(h, encode, states, ops, n);
    k := n - 1;
    RunSound(h, encode, states, ops, k);
    if id in states[k].executed {
      ExecutedListGrows(h, encode, states, ops, k, id);
      StatusMovesOneStep(h, encode, states, ops, k, id);
      j, k := ExecutedOnceAfterWinning(h, encode, states, ops, n - 1, id);
    } else {
      ExecutingIsDue(h, encode, states, ops, k, id);
      j := PassedWasWon(h, encode, states, ops, k, id);
    }
  }
}
