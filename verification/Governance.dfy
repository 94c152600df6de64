/**
On-chain governance (`src/governance/mod.rs`): proposals weighed by a stake snapshot, decided
after a voting period and executed after a delay. Proposal ids are digests of the proposer, the
height and the encoded kind; the digest and the encoding are parameters.
*/
module Governance {
  import opened Common
  import opened Hashing

  const VOTING_PERIOD_EPOCHS: nat := 2
  const QUORUM_PERCENT: nat := 50
  const APPROVAL_PERCENT: nat := 67
  const MIN_EXECUTION_DELAY: nat := 32

  datatype Kind =
    | ProtocolUpgrade(version: nat, description: string)
    | ParameterChange(parameter: string, newValue: nat)

  datatype Status = Active | Passed | Rejected | Executed | Expired

  datatype Choice = For | Against

  datatype Proposal = Proposal(
    id: Bytes, proposer: Bytes, kind: Kind, status: Status, createdAt: nat, deadline: nat, execution: Option<nat>,
    votesFor: nat, votesAgainst: nat, voters: set<Bytes>, snapshot: map<Bytes, nat>)

  datatype Error =
    | ProposalNotFound | ProposalNotActive | AlreadyVoted | InvalidParams | VotingEnded
    | UnknownParameter(name: string)

  datatype Gov = Gov(proposals: map<Bytes, Proposal>, executed: seq<Bytes>)

  function ValidParameters(): seq<string>
  {
    ["block_gas_limit", "minimum_stake", "block_reward", "epoch_length", "unstake_delay_blocks", "jail_duration_blocks"]
  }

  /** Why a proposal of this kind is refused, if it is. */
  function KindError(kind: Kind): Option<Error>
  {
    match kind
    case ProtocolUpgrade(version, _) => if version == 0 then Some(InvalidParams) else None
    case ParameterChange(name, _) => if name !in ValidParameters() then Some(UnknownParameter(name)) else None
  }

  function IdSeed(encode: Kind -> Bytes, proposer: Bytes, height: nat, kind: Kind): Bytes
  {
    proposer + LittleEndian(height, 8) + encode(kind)
  }

  function Opened(id: Bytes, proposer: Bytes, kind: Kind, height: nat, epochLength: nat, snapshot: map<Bytes, nat>): Proposal
  {
    Proposal(id, proposer, kind, Active, height, height + VOTING_PERIOD_EPOCHS * epochLength, None, 0, 0, {}, snapshot)
  }

  function SnapshotStake(p: Proposal, voter: Bytes): nat
  {
    if voter in p.snapshot then p.snapshot[voter] else 0
  }

  /** Why a vote is refused, if it is. */
  function VoteError(g: Gov, voter: Bytes, id: Bytes, height: nat): Option<Error>
  {
    if id !in g.proposals then Some(ProposalNotFound)
    else
      var p := g.proposals[id];
      if p.status != Active then Some(ProposalNotActive)
      else if height > p.deadline then Some(VotingEnded)
      else if voter in p.voters then Some(AlreadyVoted)
      else if SnapshotStake(p, voter) == 0 then Some(ProposalNotActive)
      else None
  }

  function Counted(p: Proposal, voter: Bytes, choice: Choice): Proposal
  {
    var stake := SnapshotStake(p, voter);
    if choice.For? then p.(voters := p.voters + {voter}, votesFor := p.votesFor + stake)
    else p.(voters := p.voters + {voter}, votesAgainst := p.votesAgainst + stake)
  }

  /** Quorum of the total stake and approval by the stake that voted. */
  predicate Wins(votesFor: nat, votesAgainst: nat, totalStake: nat)
  {
    var cast := votesFor + votesAgainst;
    && totalStake > 0 && cast * 100 >= totalStake * QUORUM_PERCENT
    && cast > 0 && votesFor * 100 >= cast * APPROVAL_PERCENT
  }

  /** The earliest height of execution: the delay, or the next epoch boundary when that is later. There is no boundary for epochs of length 0. */
  function ExecutionHeight(deadline: nat, epochLength: nat): nat
  {
    Max(SaturatingAdd(deadline, MIN_EXECUTION_DELAY), if epochLength == 0 then 0 else (deadline / epochLength + 1) * epochLength)
  }

  /** The block finds the proposal winning. */
  predicate Passes(p: Proposal, height: nat, totalStake: nat)
  {
    p.status == Active && height > p.deadline && Wins(p.votesFor, p.votesAgainst, totalStake)
  }

  /** An epoch length of 0 is harmless as long as no proposal passes; otherwise the source divides by it. */
  predicate Divides(ps: map<Bytes, Proposal>, height: nat, totalStake: nat, epochLength: nat)
  {
    epochLength == 0 ==> forall id :: id in ps ==> !Passes(ps[id], height, totalStake)
  }

  predicate Due(p: Proposal, height: nat)
  {
    p.status == Passed && p.execution.Some? && height >= p.execution.value
  }

  /** What one block does to one proposal. */
  function Settle(p: Proposal, height: nat, totalStake: nat, epochLength: nat): Proposal
  {
    if p.status == Active && height > p.deadline then
      if Wins(p.votesFor, p.votesAgainst, totalStake)
      then p.(status := Passed, execution := Some(ExecutionHeight(p.deadline, epochLength)))
      else p.(status := Rejected)
    else if Due(p, height) then p.(status := Executed)
    else p
  }

  function SettleAll(ps: map<Bytes, Proposal>, height: nat, totalStake: nat, epochLength: nat): map<Bytes, Proposal>
  {
    map id | id in ps :: Settle(ps[id], height, totalStake, epochLength)
  }

  function DueIds(ps: map<Bytes, Proposal>, height: nat): set<Bytes>
  {
    set id | id in ps && Due(ps[id], height)
  }

  /** `ids` lists the set without repetition, in some order. */
  ghost predicate Lists(ids: seq<Bytes>, s: set<Bytes>)
  {
    && (forall i, j :: 0 <= i < j < |ids| ==> ids[i] != ids[j])
    && (forall id :: id in ids <==> id in s)
  }

  class GovernanceState {
    var proposals: map<Bytes, Proposal>
    var executedUpgrades: seq<Bytes>

    function View(): Gov
      reads this
    {
      Gov(proposals, executedUpgrades)
    }

    /** Proposals are filed under their ids. */
    ghost predicate Valid()
      reads this
    {
      forall id :: id in proposals ==> proposals[id].id == id
    }

    constructor ()
      ensures Valid() && View() == Gov(map[], [])
    {
      proposals, executedUpgrades := map[], [];
    }

    method SubmitProposal(h: Sha3, encode: Kind -> Bytes, proposer: Bytes, kind: Kind, height: nat, epochLength: nat,
                          snapshot: map<Bytes, nat>)
      returns (error: Option<Error>, id: Bytes)
      requires Valid()
      modifies this`proposals
      ensures Valid() && error == KindError(kind)
      ensures error.Some? ==> View() == old(View())
      ensures error.None? ==> id == h(IdSeed(encode, proposer, height, kind))
      ensures error.None? ==> proposals == old(proposals)[id := Opened(id, proposer, kind, height, epochLength, snapshot)]
    {
      id := [];
      match kind {
        case ProtocolUpgrade(version, _) =>
          if version == 0 {
            return Some(InvalidParams), id;
          }
        case ParameterChange(name, _) =>
          if name !in ValidParameters() {
            return Some(UnknownParameter(name)), id;
          }
      }
      id := h(IdSeed(encode, proposer, height, kind));
      var deadline := height + VOTING_PERIOD_EPOCHS * epochLength;
      var proposal := Proposal(id, proposer, kind, Active, height, deadline, None, 0, 0, {}, snapshot);
      proposals := proposals[id := proposal];
      error := None;
    }

    method CastVote(voter: Bytes, id: Bytes, choice: Choice, height: nat) returns (error: Option<Error>)
      requires Valid()
      modifies this`proposals
      ensures Valid() && error == VoteError(old(View()), voter, id, height)
      ensures error.Some? ==> View() == old(View())
      ensures error.None? ==> proposals == old(proposals)[id := Counted(old(proposals)[id], voter, choice)]
    {
      if id !in proposals {
        return Some(ProposalNotFound);
      }
      var p := proposals[id];
      if p.status != Active {
        return Some(ProposalNotActive);
      }
      if height > p.deadline {
        return Some(VotingEnded);
      }
      if voter in p.voters {
        return Some(AlreadyVoted);
      }
      var stake := if voter in p.snapshot then p.snapshot[voter] else 0;
      if stake == 0 {
        return Some(ProposalNotActive);
      }
      p := p.(voters := p.voters + {voter});
      match choice {
        case For => p := p.(votesFor := p.votesFor + stake);
        case Against => p := p.(votesAgainst := p.votesAgainst + stake);
      }
      proposals := proposals[id := p];
      return None;
    }

    /** The body of the loop over the proposals. */
    method SettleOne(id: Bytes, height: nat, totalStake: nat, epochLength: nat) returns (executed: bool)
      requires Valid() && id in proposals && (epochLength == 0 ==> !Passes(proposals[id], height, totalStake))
      modifies this
      ensures Valid() && executed == Due(old(proposals)[id], height)
      ensures View() == VisitOne(old(View()), id, height, totalStake, epochLength)
    {
      executed := false;
      var p := proposals[id];
      match p.status {
        case Active =>
          if height > p.deadline {
            var cast := p.votesFor + p.votesAgainst;
            var quorumMet := totalStake > 0 && cast * 100 >= totalStake * QUORUM_PERCENT;
            var approved := cast > 0 && p.votesFor * 100 >= cast * APPROVAL_PERCENT;
            if quorumMet && approved {
              var boundary := (p.deadline / epochLength + 1) * epochLength;
              p := p.(status := Passed, execution := Some(Max(SaturatingAdd(p.deadline, MIN_EXECUTION_DELAY), boundary)));
            } else {
              p := p.(status := Rejected);
            }
          }
        case Passed =>
          if p.execution.Some? && height >= p.execution.value {
            p := p.(status := Executed);
            executedUpgrades := executedUpgrades + [p.id];
            executed := true;
          }
        case _ =>
      }
      proposals := proposals[id := p];
    }

    /** Visits the proposals in any order; returns those to execute. */
    method ProcessBlock(height: nat, totalStake: nat, epochLength: nat) returns (toExecute: seq<Proposal>)
      requires Valid() && Divides(proposals, height, totalStake, epochLength)
      modifies this
      ensures Valid()
      ensures proposals == SettleAll(old(proposals), height, totalStake, epochLength)
      ensures executedUpgrades == old(executedUpgrades) + IdsOf(toExecute)
      ensures Lists(IdsOf(toExecute), DueIds(old(proposals), height))
      ensures forall p :: p in toExecute ==> p.id in proposals && p == proposals[p.id]
    {
      toExecute := [];
      var pending := proposals.Keys;
      while pending != {}
        invariant Valid() && Visited(old(View()), View(), pending, toExecute, height, totalStake, epochLength)
        decreases |pending|
      {
        var id :| id in pending;
        VisitedNext(old(View()), View(), pending, toExecute, height, totalStake, epochLength, id);
        var executed := SettleOne(id, height, totalStake, epochLength);
        toExecute := if executed then toExecute + [proposals[id]] else toExecute;
        pending := pending - {id};
      }
    }
  }

  function IdsOf(ps: seq<Proposal>): (ids: seq<Bytes>)
    ensures |ids| == |ps|
    ensures forall i :: 0 <= i < |ps| ==> ids[i] == ps[i].id
  {
    seq(|ps|, i requires 0 <= i < |ps| => ps[i].id)
  }

  lemma IdsOfPush(ps: seq<Proposal>, p: Proposal)
    ensures IdsOf(ps + [p]) == IdsOf(ps) + [p.id]
  {
  }

  /** Settling one proposal, and recording it if it executes. */
  function VisitOne(g: Gov, id: Bytes, height: nat, totalStake: nat, epochLength: nat): Gov
    requires id in g.proposals
  {
    Gov(g.proposals[id := Settle(g.proposals[id], height, totalStake, epochLength)],
        if Due(g.proposals[id], height) then g.executed + [id] else g.executed)
  }

  /** The proposals still pending are as before, the others are settled. */
  ghost predicate HalfSettled(before: map<Bytes, Proposal>, pending: set<Bytes>, now: map<Bytes, Proposal>,
                              height: nat, totalStake: nat, epochLength: nat)
  {
    && now.Keys == before.Keys
    && forall id :: id in now ==>
         now[id] == if id in pending then before[id] else Settle(before[id], height, totalStake, epochLength)
  }

  /** The reported proposals are settled ones, as they are stored. */
  ghost predicate Reports(ps: seq<Proposal>, now: map<Bytes, Proposal>, pending: set<Bytes>)
  {
    forall p :: p in ps ==> p.id in now && p.id !in pending && p == now[p.id]
  }

  /** Where the loop of a block stands when the ids in `pending` are still to be visited. */
  ghost predicate Visited(before: Gov, now: Gov, pending: set<Bytes>, toExecute: seq<Proposal>,
                          height: nat, totalStake: nat, epochLength: nat)
  {
    && pending <= now.proposals.Keys
    && HalfSettled(before.proposals, pending, now.proposals, height, totalStake, epochLength)
    && now.executed == before.executed + IdsOf(toExecute)
    && Lists(IdsOf(toExecute), DueIds(before.proposals, height) - pending)
    && Reports(toExecute, now.proposals, pending)
  }

  lemma VisitedNext(before: Gov, now: Gov, pending: set<Bytes>, toExecute: seq<Proposal>,
                    height: nat, totalStake: nat, epochLength: nat, id: Bytes)
    requires id in pending
    requires Visited(before, now, pending, toExecute, height, totalStake, epochLength)
    requires now.proposals[id].id == id
    ensures var g := VisitOne(now, id, height, totalStake, epochLength);
            Visited(before, g, pending - {id},
                    if Due(now.proposals[id], height) then toExecute + [g.proposals[id]] else toExecute,
                    height, totalStake, epochLength)
  {
    var g := VisitOne(now, id, height, totalStake, epochLength);
    var ids := IdsOf(toExecute);
    assert id in DueIds(before.proposals, height) <==> Due(now.proposals[id], height);
    ListsNext(ids, DueIds(before.proposals, height), pending, id);
    IdsOfPush(toExecute, g.proposals[id]);
    assert before.executed + (ids + [id]) == before.executed + ids + [id];
    ReportsNext(toExecute, now.proposals, pending, id, g.proposals[id]);
  }

  lemma ReportsNext(ps: seq<Proposal>, now: map<Bytes, Proposal>, pending: set<Bytes>, id: Bytes, p: Proposal)
    requires Reports(ps, now, pending) && id in pending && p.id == id
    ensures Reports(ps, now[id := p], pending - {id})
    ensures Reports(ps + [p], now[id := p], pending - {id})
  {
  }

  /** Visiting one more element extends a listing by it exactly when it belongs to the set. */
  lemma ListsNext(ids: seq<Bytes>, due: set<Bytes>, pending: set<Bytes>, id: Bytes)
    requires Lists(ids, due - pending) && id in pending
    ensures Lists(if id in due then ids + [id] else ids, due - (pending - {id}))
  {
    if id in due {
      var ids' := ids + [id];
      assert forall x :: x in ids' <==> x in ids || x == id;
    }
  }
}
