/**
Governance answers from its history (`src/governance/mod.rs`): which submissions open a proposal,
what every vote is answered, and when a passed proposal executes, in terms of the operations and
the ballots counted before.
*/
module GovernanceExact {
  import opened Common
  import opened Hashing
  import opened Governance
  import opened GovernanceRuns

  /** The last submission of this id among the first `n` operations. */
  ghost function LastOpening(h: Sha3, encode: Encoder, ops: seq<Op>, n: nat, id: Bytes): (r: Option<nat>)
    requires n <= |ops|
    ensures r.Some? ==> r.value < n && ops[r.value].Submit?
  {
    if n == 0 then None
    else if SubmitsId(h, encode, ops[n - 1], id) then Some(n - 1)
    else LastOpening(h, encode, ops, n - 1, id)
  }

  /** A submission under this id, of a protocol upgrade to a version above 0 or a change of one of the six parameters. */
  ghost predicate SubmitsId(h: Sha3, encode: Encoder, op: Op, id: Bytes)
  {
    && op.Submit?
    && h(op.proposer + LittleEndian(op.height, 8) + encode(op.kind)) == id
    && match op.kind
       case ProtocolUpgrade(version, _) => version >= 1
       case ParameterChange(name, _) =>
         || name == "block_gas_limit" || name == "minimum_stake" || name == "block_reward"
         || name == "epoch_length" || name == "unstake_delay_blocks" || name == "jail_duration_blocks"
  }

  lemma SubmitsIdIff(h: Sha3, encode: Encoder, op: Op, id: Bytes)
    ensures SubmitsId(h, encode, op, id) <==> Opens(h, encode, op, id)
  {
  }

  /** Two epochs of the submission's length after it. */
  function Deadline(op: Op): nat
    requires op.Submit?
  {
    op.height + 2 * op.epochLength
  }

  /** A block after the deadline has come since the submission at `j`. */
  ghost predicate Decided(ops: seq<Op>, j: nat, n: nat)
    requires j < n <= |ops| && ops[j].Submit?
  {
    exists k :: j < k < n && ops[k].Block? && ops[k].height > Deadline(ops[j])
  }

  /** A stored proposal is what its last submission made it, and it is Active until the first block after its deadline. */
  ghost predicate FromOpening(h: Sha3, encode: Encoder, states: seq<Gov>, ops: seq<Op>, n: nat, id: Bytes)
    requires n <= |ops| < |states|
  {
    var j := LastOpening(h, encode, ops, n, id);
    && (id in states[n].proposals <==> j.Some?)
    && (j.Some? ==>
          var p, op := states[n].proposals[id], ops[j.value];
          && p.id == id && p.proposer == op.proposer && p.kind == op.kind && p.createdAt == op.height
          && p.deadline == Deadline(op) && p.snapshot == op.snapshot
          && (p.status == Active <==> !Decided(ops, j.value, n)))
  }

  lemma DecidedNext(ops: seq<Op>, j: nat, n: nat)
    requires j < n < |ops| && ops[j].Submit?
    ensures Decided(ops, j, n + 1) <==> Decided(ops, j, n) || (ops[n].Block? && ops[n].height > Deadline(ops[j]))
  {
  }

  lemma {:induction false} ProposalsFromOpenings(h: Sha3, encode: Encoder, states: seq<Gov>, ops: seq<Op>, n: nat, id: Bytes)
    requires IsRun(h, encode, states, ops) && n <= |ops|
    ensures FromOpening(h, encode, states, ops, n, id)
  {
    if n > 0 {
      var k := n - 1;
      ProposalsFromOpenings(h, encode, states, ops, k, id);
      assert StepAt(h, encode, states, ops, k);
      SubmitsIdIff(h, encode, ops[k], id);
      var j := LastOpening(h, encode, ops, k, id);
      if !Opens(h, encode, ops[k], id) && j.Some? {
        DecidedNext(ops, j.value, k);
      }
    }
  }

  /**
  What every vote is answered, at any point of any run: the first of these that applies - no such
  proposal was ever opened; a block after its deadline has decided it; the deadline has passed; a
  ballot of this voter was counted since it was opened; the voter had no stake when it was opened -
  and otherwise the ballot is counted.
  */
  lemma VoteAnswers(h: Sha3, encode: Encoder, states: seq<Gov>, ops: seq<Op>, n: nat)
    requires IsRun(h, encode, states, ops) && n < |ops| && ops[n].Vote?
    ensures var v := ops[n];
            var j := LastOpening(h, encode, ops, n, v.id);
            VoteError(states[n], v.voter, v.id, v.height) ==
            if j.None? then Some(ProposalNotFound)
            else if Decided(ops, j.value, n) then Some(ProposalNotActive)
            else if v.height > Deadline(ops[j.value]) then Some(VotingEnded)
            else if v.voter in Ballots(h, encode, states, ops, n, v.id, For) + Ballots(h, encode, states, ops, n, v.id, Against)
            then Some(AlreadyVoted)
            else if v.voter !in ops[j.value].snapshot || ops[j.value].snapshot[v.voter] == 0 then Some(ProposalNotActive)
            else None
  {
    ProposalsFromOpenings(h, encode, states, ops, n, ops[n].id);
    if ops[n].id in states[n].proposals {
      TalliesAreBallots(h, encode, states, ops, n, ops[n].id);
    }
  }

  /** A vote answered without an error is counted on the side it chose, and one with an error changes nothing. */
  lemma VoteIsCountedIff(h: Sha3, encode: Encoder, states: seq<Gov>, ops: seq<Op>, n: nat)
    requires IsRun(h, encode, states, ops) && n < |ops| && ops[n].Vote?
    ensures var v := ops[n];
            var error := VoteError(states[n], v.voter, v.id, v.height);
            && (error.Some? ==> states[n + 1] == states[n])
            && (error.None? ==>
                  && Ballots(h, encode, states, ops, n + 1, v.id, v.choice)
                     == Ballots(h, encode, states, ops, n, v.id, v.choice) + {v.voter}
                  && v.voter !in Ballots(h, encode, states, ops, n, v.id, v.choice))
  {
    assert StepAt(h, encode, states, ops, n);
    VoteAnswers(h, encode, states, ops, n);
  }

  /** A submission opens its proposal, with no ballots, exactly when its kind is one of those allowed; otherwise nothing changes. */
  lemma SubmissionOpensIff(h: Sha3, encode: Encoder, states: seq<Gov>, ops: seq<Op>, n: nat)
    requires IsRun(h, encode, states, ops) && n < |ops| && ops[n].Submit?
    ensures var id := h(ops[n].proposer + LittleEndian(ops[n].height, 8) + encode(ops[n].kind));
            if SubmitsId(h, encode, ops[n], id) then
              && id in states[n + 1].proposals && states[n + 1].proposals[id].status == Active
              && states[n + 1].proposals[id].voters == {}
              && (forall other :: other != id ==>
                    (other in states[n + 1].proposals <==> other in states[n].proposals)
                    && (other in states[n].proposals ==> states[n + 1].proposals[other] == states[n].proposals[other]))
            else states[n + 1] == states[n]
  {
    assert StepAt(h, encode, states, ops, n);
    SubmitsIdIff(h, encode, ops[n], h(ops[n].proposer + LittleEndian(ops[n].height, 8) + encode(ops[n].kind)));
  }

  // ---------------------------------------------------------------------------
  // Execution

  /** The block is at least 32 after the deadline, or at the last height there is, and in a later epoch than the deadline. */
  predicate Ripe(deadline: nat, epochLength: nat, height: nat)
    requires epochLength > 0
  {
    (height >= deadline + 32 || height >= U64_MAX) && height / epochLength > deadline / epochLength
  }

  lemma LaterEpoch(deadline: nat, epochLength: nat, height: nat)
    requires epochLength > 0
    ensures height >= (deadline / epochLength + 1) * epochLength <==> height / epochLength > deadline / epochLength
  {
    var q, q' := deadline / epochLength, height / epochLength;
    var r, r' := deadline % epochLength, height % epochLength;
    assert height == q' * epochLength + r';
    if q' > q {
      assert q' * epochLength >= (q + 1) * epochLength;
    } else {
      assert q' * epochLength <= q * epochLength;
      assert (q + 1) * epochLength == q * epochLength + epochLength;
    }
  }

  lemma RipeIff(deadline: nat, epochLength: nat, height: nat)
    requires epochLength > 0
    ensures height >= ExecutionHeight(deadline, epochLength) <==> Ripe(deadline, epochLength, height)
  {
    LaterEpoch(deadline, epochLength, height);
  }

  /** Operation `j` is the block at which `id` passed. */
  ghost predicate PassedAt(states: seq<Gov>, ops: seq<Op>, j: nat, id: Bytes)
    requires j < |ops| < |states|
  {
    && ops[j].Block? && id in states[j].proposals && states[j].proposals[id].status == Active
    && id in states[j + 1].proposals && states[j + 1].proposals[id].status == Passed
  }

  /** Passing fixes the execution height from the epoch length of that block. */
  lemma PassingFixesExecution(h: Sha3, encode: Encoder, states: seq<Gov>, ops: seq<Op>, j: nat, id: Bytes)
    requires IsRun(h, encode, states, ops) && j < |ops| && PassedAt(states, ops, j, id)
    ensures ops[j].epochLength > 0
    ensures var p := states[j + 1].proposals[id];
            p.execution == Some(ExecutionHeight(p.deadline, ops[j].epochLength)) && p.deadline == states[j].proposals[id].deadline
  {
    assert StepAt(h, encode, states, ops, j);
  }

  /**
  In every run a proposal that passed at block `j` and is still Passed is executed by a later block
  if and only if that block is at least 32 after the deadline, or at the last height there is, and
  in a later epoch than the deadline, by the epoch length of block `j`.
  */
  lemma ExecutesIff(h: Sha3, encode: Encoder, states: seq<Gov>, ops: seq<Op>, j: nat, k: nat, id: Bytes)
    requires IsRun(h, encode, states, ops) && HeightsRise(ops) && OneHeightPerId(h, encode, ops)
    requires j < k < |ops| && ops[k].Block? && PassedAt(states, ops, j, id)
    requires id in states[k].proposals && states[k].proposals[id].status == Passed
    ensures ops[j].epochLength > 0 && id in states[k + 1].proposals
    ensures states[k + 1].proposals[id].status
         == if Ripe(states[j].proposals[id].deadline, ops[j].epochLength, ops[k].height) then Executed else Passed
    ensures (id in states[k + 1].executed <==> Ripe(states[j].proposals[id].deadline, ops[j].epochLength, ops[k].height))
  {
    PassingFixesExecution(h, encode, states, ops, j, id);
    DecisionsAreFinal(h, encode, states, ops, j + 1, k, id);
    RipeIff(states[j].proposals[id].deadline, ops[j].epochLength, ops[k].height);
    RunSound(h, encode, states, ops, k);
    assert SoundAt(h, encode, states, ops, k, id);
    assert StepAt(h, encode, states, ops, k);
    assert id in DueIds(states[k].proposals, ops[k].height) <==> Due(states[k].proposals[id], ops[k].height);
  }
}
