/** One round of the Tendermint-style vote: the state a node keeps per
    (height, round) and how votes move its phase forward. */
module Bft {
  import opened Types

  type Id = Hash32

  datatype VoteType = Prevote | Precommit

  datatype Vote = Vote(height: nat, round: nat, blockHash: Hash32, voteType: VoteType, validatorId: Id)

  datatype BftPhase = Propose | Prevote | Precommit | Commit

  type Tally = map<Hash32, set<Id>>

  datatype Round = Round(
    height: nat, round: nat, phase: BftPhase, prevotes: Tally, precommits: Tally, totalValidators: nat)

  function NewRound(height: nat, round: nat, totalValidators: nat): Round {
    Round(height, round, BftPhase.Propose, map[], map[], totalValidators)
  }

  function Voters(t: Tally, hash: Hash32): set<Id> {
    if hash in t then t[hash] else {}
  }

  predicate IsQuorum(voters: set<Id>, totalValidators: nat) {
    |voters| * 3 > totalValidators * 2
  }

  /** The new state, and whether the vote was new. */
  function AddVote(r: Round, v: Vote): (Round, bool) {
    if v.height != r.height || v.round != r.round then (r, false)
    else match v.voteType
      case Prevote =>
        var voters := Voters(r.prevotes, v.blockHash);
        (r.(prevotes := r.prevotes[v.blockHash := voters + {v.validatorId}]), v.validatorId !in voters)
      case Precommit =>
        var voters := Voters(r.precommits, v.blockHash);
        (r.(precommits := r.precommits[v.blockHash := voters + {v.validatorId}]), v.validatorId !in voters)
  }

  function TryAdvance(r: Round, hash: Hash32): (Round, Option<BftPhase>) {
    if r.phase == BftPhase.Propose then
      (r.(phase := BftPhase.Prevote), Some(BftPhase.Prevote))
    else if r.phase == BftPhase.Prevote && IsQuorum(Voters(r.prevotes, hash), r.totalValidators) then
      (r.(phase := BftPhase.Precommit), Some(BftPhase.Precommit))
    else if r.phase == BftPhase.Precommit && IsQuorum(Voters(r.precommits, hash), r.totalValidators) then
      (r.(phase := BftPhase.Commit), Some(BftPhase.Commit))
    else (r, None)
  }

  function Rank(p: BftPhase): nat {
    match p case Propose => 0 case Prevote => 1 case Precommit => 2 case Commit => 3
  }

  /** Votes heard one after the other; only a new vote can move the phase. */
  function Hear(r: Round, votes: seq<Vote>): Round {
    if votes == [] then r
    else
      var n := |votes| - 1;
      var (counted, isNew) := AddVote(Hear(r, votes[..n]), votes[n]);
      if isNew then TryAdvance(counted, votes[n].blockHash).0 else counted
  }

  function Voted(votes: seq<Vote>): set<Id> {
    if votes == [] then {} else Voted(votes[..|votes| - 1]) + {votes[|votes| - 1].validatorId}
  }

  /** Prevotes of this round for one block, each from another id. */
  predicate OnePrevoteEach(height: nat, round: nat, hash: Hash32, votes: seq<Vote>) {
    votes != [] ==>
      var (n, v) := (|votes| - 1, votes[|votes| - 1]);
      && OnePrevoteEach(height, round, hash, votes[..n])
      && v == Vote(height, round, hash, VoteType.Prevote, v.validatorId) && v.validatorId !in Voted(votes[..n])
  }

  /** Prevotes that reach a node before the proposal: the first one only opens the round,
      whatever it adds up to; from the second on a quorum moves the node to precommit. */
  lemma {:induction false} OpensWithFirst(height: nat, round: nat, total: nat, votes: seq<Vote>, hash: Hash32)
    requires OnePrevoteEach(height, round, hash, votes)
    ensures var r := Hear(NewRound(height, round, total), votes);
            && r.height == height && r.round == round && r.totalValidators == total
            && Voters(r.prevotes, hash) == Voted(votes) && |Voted(votes)| == |votes| && r.precommits == map[]
            && r.phase == if votes == [] then BftPhase.Propose
                          else if |votes| > 1 && 3 * |votes| > 2 * total then BftPhase.Precommit else BftPhase.Prevote
    decreases |votes|
  {
    if votes != [] {
      var n := |votes| - 1;
      OpensWithFirst(height, round, total, votes[..n], hash);
      HearsNext(Hear(NewRound(height, round, total), votes[..n]), votes[n], n);
    }
  }

  lemma HearsNext(r: Round, v: Vote, n: nat)
    requires v.height == r.height && v.round == r.round && v.voteType == VoteType.Prevote && r.precommits == map[]
    requires v.validatorId !in Voters(r.prevotes, v.blockHash) && |Voters(r.prevotes, v.blockHash)| == n
    ensures var (counted, isNew) := AddVote(r, v);
            var after := TryAdvance(counted, v.blockHash).0;
            && isNew && counted.phase == r.phase
            && after.height == r.height && after.round == r.round && after.totalValidators == r.totalValidators
            && after.precommits == map[]
            && Voters(after.prevotes, v.blockHash) == Voters(r.prevotes, v.blockHash) + {v.validatorId}
            && |Voters(after.prevotes, v.blockHash)| == n + 1
            && (r.phase == BftPhase.Propose ==> after.phase == BftPhase.Prevote)
            && (r.phase == BftPhase.Prevote ==>
                  after.phase == if 3 * (n + 1) > 2 * r.totalValidators then BftPhase.Precommit else BftPhase.Prevote)
            && (r.phase == BftPhase.Precommit ==> after.phase == BftPhase.Precommit)
  {
  }

  class BftRoundState {
    const height: nat
    const round: nat
    var phase: BftPhase
    var prevotes: Tally
    var precommits: Tally
    const totalValidators: nat

    function State(): Round
      reads this
    {
      Round(height, round, phase, prevotes, precommits, totalValidators)
    }

    constructor (height: nat, round: nat, totalValidators: nat)
      ensures State() == NewRound(height, round, totalValidators)
    {
      this.height, this.round, this.totalValidators := height, round, totalValidators;
      phase, prevotes, precommits := BftPhase.Propose, map[], map[];
    }

    method RecordVote(vote: Vote) returns (isNew: bool)
      modifies this
      ensures (State(), isNew) == AddVote(old(State()), vote)
      ensures phase == old(phase)
    {
      if vote.height != height || vote.round != round {
        return false;
      }
      match vote.voteType
      case Prevote =>
        var voters := if vote.blockHash in prevotes then prevotes[vote.blockHash] else {};
        isNew := vote.validatorId !in voters;
        prevotes := prevotes[vote.blockHash := voters + {vote.validatorId}];
      case Precommit =>
        var voters := if vote.blockHash in precommits then precommits[vote.blockHash] else {};
        isNew := vote.validatorId !in voters;
        precommits := precommits[vote.blockHash := voters + {vote.validatorId}];
    }

    predicate HasQuorumPrevote(hash: Hash32)
      reads this
      ensures HasQuorumPrevote(hash) <==> IsQuorum(Voters(prevotes, hash), totalValidators)
    {
      hash in prevotes && |prevotes[hash]| * 3 > totalValidators * 2
    }

    predicate HasQuorumPrecommit(hash: Hash32)
      reads this
      ensures HasQuorumPrecommit(hash) <==> IsQuorum(Voters(precommits, hash), totalValidators)
    {
      hash in precommits && |precommits[hash]| * 3 > totalValidators * 2
    }

    method TryAdvancePhase(hash: Hash32) returns (newPhase: Option<BftPhase>)
      modifies this`phase
      ensures (State(), newPhase) == TryAdvance(old(State()), hash)
      ensures Rank(phase) == Rank(old(phase)) + if newPhase.Some? then 1 else 0
    {
      if phase == BftPhase.Propose {
        phase := BftPhase.Prevote;
        return Some(phase);
      }
      if phase == BftPhase.Prevote && HasQuorumPrevote(hash) {
        phase := BftPhase.Precommit;
        return Some(phase);
      }
      if phase == BftPhase.Precommit && HasQuorumPrecommit(hash) {
        phase := BftPhase.Commit;
        return Some(phase);
      }
      return None;
    }
  }
}
