/** Where the protocol stops short of agreement and validity. The bounds of `Safety`
    are exact: past them some run of the code disagrees, for validator sets of any size.
    And without each of the other hypotheses, honest validators alone disagree. */
module Disagreement {
  import opened Types
  import opened Bft
  import opened Consensus
  import opened Safety
  import Stalls
  import Builder
  import Execution
  import Ledger
  import Mempool

  function Entered(cfg: Config, at: Books): Node {
    Enter(cfg, at.0, at.1)
  }

  function Prevote(at: Books, hash: Hash32, id: Id): Vote {
    Vote(Next(at), 0, hash, VoteType.Prevote, id)
  }

  function Precommit(at: Books, hash: Hash32, id: Id): Vote {
    Vote(Next(at), 0, hash, VoteType.Precommit, id)
  }

  // ---------------------------------------------------------- one node, one vote

  predicate FirstRound(cfg: Config, node: Node, at: Books, current: Block) {
    && node.height == node.bft.height == Next(at) && node.round == node.bft.round == 0
    && node.bft.totalValidators == TotalValidators(cfg, Next(at))
    && node.current == Some(current) && (node.store, node.pool) == at
  }

  /** The node counted the prevotes `pre` for `hash`, and no precommit for it. */
  predicate Waiting(cfg: Config, node: Node, at: Books, current: Block, hash: Hash32, pre: set<Id>) {
    && FirstRound(cfg, node, at, current) && node.bft.phase == BftPhase.Prevote
    && Voters(node.bft.prevotes, hash) == pre && Voters(node.bft.precommits, hash) == {}
  }

  /** The node saw a quorum of prevotes, and counted the precommits `com` for `hash`. */
  predicate Ready(cfg: Config, node: Node, at: Books, current: Block, hash: Hash32, com: set<Id>) {
    && FirstRound(cfg, node, at, current) && node.bft.phase == BftPhase.Precommit
    && Voters(node.bft.precommits, hash) == com
  }

  /** Whose votes are counted at the height. */
  predicate Eligible(cfg: Config, at: Books, id: Id) {
    id in cfg.validators(Next(at)) || cfg.validators(Next(at)) == {}
  }

  /** The votes of `voters` make a quorum at `n` beside its own, and one of them is not
      its own: one's own vote does not set off the next phase. */
  predicate Suffices(cfg: Config, at: Books, n: Id, voters: set<Id>) {
    !(voters <= Own(cfg, n)) && IsQuorum(voters + Own(cfg, n), TotalValidators(cfg, Next(at)))
  }

  /** The node's own prevote for the hash, once it took in the block. */
  function OwnFor(cfg: Config, n: Id, block: Block, hash: Hash32): set<Id> {
    if hash == HashOf(cfg, block) then Own(cfg, n) else {}
  }

  lemma TakesFirst(cfg: Config, n: Id, at: Books, a: Block, hash: Hash32)
    requires a.header.height == Next(at)
    ensures var (node, sent) := OnBlock(cfg, n, Entered(cfg, at), a, false);
            && Waiting(cfg, node, at, a, hash, OwnFor(cfg, n, a, hash))
            && sent == (if n in cfg.keyed then Some(Prevote(at, HashOf(cfg, a), n)) else None)
  {
  }

  lemma TakesNext(cfg: Config, n: Id, at: Books, node: Node, current: Block, hash: Hash32, pre: set<Id>, a: Block)
    requires Waiting(cfg, node, at, current, hash, pre) && a.header.height == Next(at)
    requires !IsQuorum(Voters(node.bft.prevotes, HashOf(cfg, a)), TotalValidators(cfg, Next(at)))
    ensures var (after, sent) := OnBlock(cfg, n, node, a, false);
            && Waiting(cfg, after, at, a, hash, pre + OwnFor(cfg, n, a, hash))
            && sent == (if n in cfg.keyed then Some(Prevote(at, HashOf(cfg, a), n)) else None)
  {
  }

  lemma HearsPrevote(cfg: Config, n: Id, at: Books, node: Node, current: Block, hash: Hash32, pre: set<Id>, from: Id,
          now: nat)
    requires Waiting(cfg, node, at, current, hash, pre) && from !in pre && Eligible(cfg, at, from)
    ensures var o := OnVote(cfg, n, node, Prevote(at, hash, from), now);
            && o.committed == None && o.executed == None
            && if IsQuorum(pre + {from}, TotalValidators(cfg, Next(at)))
               then Ready(cfg, o.node, at, current, hash, Own(cfg, n))
                    && o.sent == (if n in cfg.keyed then Some(Precommit(at, hash, n)) else None)
               else Waiting(cfg, o.node, at, current, hash, pre + {from}) && o.sent == None
  {
    hide AfterCommit, TotalValidators, IsQuorum;
  }

  lemma HearsPrecommit(cfg: Config, n: Id, at: Books, node: Node, current: Block, hash: Hash32, com: set<Id>, from: Id,
          now: nat)
    requires Ready(cfg, node, at, current, hash, com) && from !in com && Eligible(cfg, at, from)
    ensures var o := OnVote(cfg, n, node, Precommit(at, hash, from), now);
            if IsQuorum(com + {from}, TotalValidators(cfg, Next(at)))
            then o == VoteOutcome(AfterCommit(cfg, n, Entered(cfg, at), current, now), None, Some(hash), Some(current))
            else Ready(cfg, o.node, at, current, hash, com + {from}) && o == VoteOutcome(o.node, None, None, None)
  {
    hide Execution.ExecuteBlock, TotalValidators, IsQuorum;
  }

  // ------------------------------------------------------------------ short runs

  /** The nodes but `ns` stay as they were, and nothing sent or recorded is lost. */
  predicate OnlyMoved(s: System, t: System, ns: set<Id>) {
    && t.nodes.Keys == s.nodes.Keys && (forall m :: m in s.nodes && m !in ns ==> t.nodes[m] == s.nodes[m])
    && s.votes <= t.votes && s.commits <= t.commits && s.executions <= t.executions
  }

  /** The run is one that `Safety` speaks about at this height. */
  ghost predicate Proper(cfg: Config, height: nat, s: System, actions: seq<Action>) {
    Authentic(cfg, height, actions) && AllMoveOn(cfg, height, s, actions)
  }

  lemma OneStep(cfg: Config, height: nat, s: System, a: Action)
    ensures Run(cfg, s, [a]) == Step(cfg, s, a)
    ensures AllMoveOn(cfg, height, s, [a]) <==> MovesOn(cfg, height, s, a)
    ensures Authentic(cfg, height, [a]) <==> Genuine(cfg, height, a)
  {
    hide Step, MovesOn, Genuine;
    assert [a][1..] == [];
    assert Run(cfg, Step(cfg, s, a), []) == Step(cfg, s, a);
    assert [a][0] == a;
  }

  lemma {:induction false} RunConcat(cfg: Config, height: nat, s: System, a: seq<Action>, b: seq<Action>)
    ensures Run(cfg, s, a + b) == Run(cfg, Run(cfg, s, a), b)
    ensures AllMoveOn(cfg, height, s, a + b) <==>
              AllMoveOn(cfg, height, s, a) && AllMoveOn(cfg, height, Run(cfg, s, a), b)
    ensures Authentic(cfg, height, a + b) <==> Authentic(cfg, height, a) && Authentic(cfg, height, b)
    decreases |a|
  {
    hide Step, MovesOn, Genuine;
    if a == [] {
      assert a + b == b;
    } else {
      assert (a + b)[1..] == a[1..] + b;
      RunConcat(cfg, height, Step(cfg, s, a[0]), a[1..], b);
      AuthenticCons(cfg, height, a);
      AuthenticCons(cfg, height, a + b);
    }
  }

  lemma AuthenticCons(cfg: Config, height: nat, a: seq<Action>)
    requires a != []
    ensures Authentic(cfg, height, a) <==> Genuine(cfg, height, a[0]) && Authentic(cfg, height, a[1..])
  {
    hide Genuine;
  }

  lemma NothingRuns(cfg: Config, height: nat, s: System)
    ensures Run(cfg, s, []) == s && Proper(cfg, height, s, [])
  {
  }

  /** `n` takes in one proposal. */
  lemma TakesOne(cfg: Config, s: System, n: Id, at: Books, a: Block, hash: Hash32) returns (actions: seq<Action>)
    requires n in s.nodes && s.nodes[n] == Entered(cfg, at) && a.header.height == Next(at)
    ensures var t := Run(cfg, s, actions);
            && OnlyMoved(s, t, {n}) && Proper(cfg, Next(at), s, actions)
            && Waiting(cfg, t.nodes[n], at, a, hash, OwnFor(cfg, n, a, hash))
            && t.received == s.received + {Receipt(n, Next(at), HashOf(cfg, a))}
  {
    actions := [DeliverBlock(n, a, false)];
    TakesFirst(cfg, n, at, a, hash);
    OneStep(cfg, Next(at), s, actions[0]);
    assert Entered(cfg, at).height == Next(at);
    hide OnBlock, Enter, Waiting;
  }

  lemma TakeStep(cfg: Config, s: System, n: Id, at: Books, a: Block, hash: Hash32)
    requires n in s.nodes && s.nodes[n] == Entered(cfg, at) && a.header.height == Next(at)
    ensures var act := DeliverBlock(n, a, false);
            var t := Step(cfg, s, act);
            && OnlyMoved(s, t, {n}) && MovesOn(cfg, Next(at), s, act)
            && Waiting(cfg, t.nodes[n], at, a, hash, OwnFor(cfg, n, a, hash))
            && (n in cfg.keyed ==> Prevote(at, HashOf(cfg, a), n) in t.votes)
  {
    TakesFirst(cfg, n, at, a, hash);
    hide OnBlock, Waiting, Enter;
  }

  /** One's own prevote is a quorum in a set of one only. */
  lemma OwnIsNoQuorum(cfg: Config, n: Id, at: Books, node: Node, a: Block, hash: Hash32, pre: set<Id>)
    requires Waiting(cfg, node, at, a, hash, pre) && pre <= Own(cfg, n)
    requires pre == {} || TotalValidators(cfg, Next(at)) > 1
    ensures !IsQuorum(Voters(node.bft.prevotes, hash), TotalValidators(cfg, Next(at)))
  {
    SubsetCard(pre, {n});
  }

  lemma TakeNextStep(cfg: Config, s: System, n: Id, at: Books, a: Block, hash: Hash32, b: Block)
    requires n in s.nodes && a.header.height == b.header.height == Next(at)
    requires HashOf(cfg, a) != HashOf(cfg, b) || TotalValidators(cfg, Next(at)) > 1
    requires forall hash :: Waiting(cfg, s.nodes[n], at, a, hash, OwnFor(cfg, n, a, hash))
    requires hash in {HashOf(cfg, a), HashOf(cfg, b)}
    ensures var act := DeliverBlock(n, b, false);
            var t := Step(cfg, s, act);
            && OnlyMoved(s, t, {n}) && MovesOn(cfg, Next(at), s, act)
            && Waiting(cfg, t.nodes[n], at, b, hash, Own(cfg, n))
            && (n in cfg.keyed ==> Prevote(at, HashOf(cfg, b), n) in t.votes)
  {
    hide OnBlock, Waiting, TotalValidators, Enter, IsQuorum;
    var pre := OwnFor(cfg, n, a, hash);
    var counted := OwnFor(cfg, n, a, HashOf(cfg, b));
    OwnIsNoQuorum(cfg, n, at, s.nodes[n], a, HashOf(cfg, b), counted);
    TakesNext(cfg, n, at, s.nodes[n], a, hash, pre, b);
    assert pre + OwnFor(cfg, n, b, hash) == Own(cfg, n);
  }

  /** The node took in `a` and then `b`, counts its own prevotes and sent them. */
  predicate Took(cfg: Config, t: System, n: Id, at: Books, a: Block, b: Block) {
    && n in t.nodes
    && Waiting(cfg, t.nodes[n], at, b, HashOf(cfg, a), Own(cfg, n))
    && Waiting(cfg, t.nodes[n], at, b, HashOf(cfg, b), Own(cfg, n))
    && (n in cfg.keyed ==> Prevote(at, HashOf(cfg, a), n) in t.votes && Prevote(at, HashOf(cfg, b), n) in t.votes)
  }

  /** `n` takes in two proposals, and prevotes both if it holds a key. */
  lemma TakesBoth(cfg: Config, s: System, n: Id, at: Books, a: Block, b: Block) returns (actions: seq<Action>)
    requires n in s.nodes && s.nodes[n] == Entered(cfg, at) && a.header.height == b.header.height == Next(at)
    requires HashOf(cfg, a) != HashOf(cfg, b) || TotalValidators(cfg, Next(at)) > 1
    ensures var t := Run(cfg, s, actions);
            && OnlyMoved(s, t, {n}) && Proper(cfg, Next(at), s, actions)
            && Took(cfg, t, n, at, a, b)
  {
    hide Step, MovesOn, Run, AllMoveOn, Authentic, Waiting, Enter, HashOf, TotalValidators, Next, Prevote;
    var (first, second) := (DeliverBlock(n, a, false), DeliverBlock(n, b, false));
    actions := [first] + [second];
    var u := Step(cfg, s, first);
    TakeStep(cfg, s, n, at, a, HashOf(cfg, a));
    forall hash
      ensures Waiting(cfg, u.nodes[n], at, a, hash, OwnFor(cfg, n, a, hash))
    {
      TakeStep(cfg, s, n, at, a, hash);
    }
    TakeNextStep(cfg, u, n, at, a, HashOf(cfg, a), b);
    TakeNextStep(cfg, u, n, at, a, HashOf(cfg, b), b);
    OneStep(cfg, Next(at), s, first);
    OneStep(cfg, Next(at), u, second);
    RunConcat(cfg, Next(at), s, [first], [second]);
  }

  lemma {:induction false} AllTake(cfg: Config, s: System, ns: set<Id>, at: Books, a: Block, b: Block)
    returns (actions: seq<Action>)
    requires forall n :: n in ns ==> n in s.nodes && s.nodes[n] == Entered(cfg, at)
    requires a.header.height == b.header.height == Next(at)
    requires HashOf(cfg, a) != HashOf(cfg, b) || TotalValidators(cfg, Next(at)) > 1
    ensures var t := Run(cfg, s, actions);
            && OnlyMoved(s, t, ns) && Proper(cfg, Next(at), s, actions)
            && (forall n :: n in ns ==> Took(cfg, t, n, at, a, b))
    decreases ns
  {
    hide Run, AllMoveOn, Authentic, Waiting, Enter, HashOf, TotalValidators, Next, Prevote;
    if ns == {} {
      actions := [];
      NothingRuns(cfg, Next(at), s);
    } else {
      var n :| n in ns;
      var first := TakesBoth(cfg, s, n, at, a, b);
      var rest := AllTake(cfg, Run(cfg, s, first), ns - {n}, at, a, b);
      RunConcat(cfg, Next(at), s, first, rest);
      actions := first + rest;
    }
  }

  lemma PrevoteStep(cfg: Config, s: System, n: Id, at: Books, current: Block, hash: Hash32, pre: set<Id>, from: Id)
    requires n in s.nodes && Waiting(cfg, s.nodes[n], at, current, hash, pre) && from !in pre
    requires Eligible(cfg, at, from) && Prevote(at, hash, from) in s.votes
    ensures var a := DeliverVote(n, Prevote(at, hash, from), 0);
            var t := Step(cfg, s, a);
            && OnlyMoved(s, t, {n}) && t.received == s.received && MovesOn(cfg, Next(at), s, a)
            && if IsQuorum(pre + {from}, TotalValidators(cfg, Next(at)))
               then Ready(cfg, t.nodes[n], at, current, hash, Own(cfg, n))
                    && (n in cfg.keyed ==> Precommit(at, hash, n) in t.votes)
               else Waiting(cfg, t.nodes[n], at, current, hash, pre + {from})
  {
    HearsPrevote(cfg, n, at, s.nodes[n], current, hash, pre, from, 0);
    hide OnVote, Waiting, Ready, TotalValidators, Moves, IsQuorum, AfterCommit;
  }

  /** `n` hears prevotes one by one until they are a quorum, and precommits. */
  lemma {:induction false} HearsPrevotes(cfg: Config, s: System, n: Id, at: Books, current: Block, hash: Hash32,
          pre: set<Id>, rest: set<Id>) returns (actions: seq<Action>)
    requires n in s.nodes && Waiting(cfg, s.nodes[n], at, current, hash, pre)
    requires rest != {} && rest !! pre && IsQuorum(pre + rest, TotalValidators(cfg, Next(at)))
    requires forall id :: id in rest ==> Eligible(cfg, at, id) && Prevote(at, hash, id) in s.votes
    ensures var t := Run(cfg, s, actions);
            && OnlyMoved(s, t, {n}) && t.received == s.received && Proper(cfg, Next(at), s, actions)
            && Ready(cfg, t.nodes[n], at, current, hash, Own(cfg, n))
            && (n in cfg.keyed ==> Precommit(at, hash, n) in t.votes)
    decreases rest
  {
    var from :| from in rest;
    var a := DeliverVote(n, Prevote(at, hash, from), 0);
    hide Step, MovesOn, Run, Authentic, AllMoveOn, Waiting, Ready, TotalValidators, IsQuorum, Eligible, Next, Prevote,
         Precommit;
    PrevoteStep(cfg, s, n, at, current, hash, pre, from);
    var t := Step(cfg, s, a);
    OneStep(cfg, Next(at), s, a);
    if IsQuorum(pre + {from}, TotalValidators(cfg, Next(at))) {
      actions := [a];
    } else {
      assert pre + rest == (pre + {from}) + (rest - {from});
      assert rest - {from} == {} ==> pre + rest == pre + {from};
      var more := HearsPrevotes(cfg, t, n, at, current, hash, pre + {from}, rest - {from});
      RunConcat(cfg, Next(at), s, [a], more);
      actions := [a] + more;
    }
  }

  lemma PrecommitsOn(cfg: Config, s: System, n: Id, at: Books, current: Block, hash: Hash32, voters: set<Id>)
    returns (actions: seq<Action>)
    requires n in s.nodes && Waiting(cfg, s.nodes[n], at, current, hash, Own(cfg, n)) && Suffices(cfg, at, n, voters)
    requires forall id :: id in voters ==> Eligible(cfg, at, id) && Prevote(at, hash, id) in s.votes
    ensures var t := Run(cfg, s, actions);
            && OnlyMoved(s, t, {n}) && Proper(cfg, Next(at), s, actions)
            && Ready(cfg, t.nodes[n], at, current, hash, Own(cfg, n))
            && (n in cfg.keyed ==> Precommit(at, hash, n) in t.votes)
  {
    hide Run, AllMoveOn, Authentic, Waiting, Ready, TotalValidators, IsQuorum, Eligible, Next;
    assert Own(cfg, n) + (voters - Own(cfg, n)) == voters + Own(cfg, n);
    actions := HearsPrevotes(cfg, s, n, at, current, hash, Own(cfg, n), voters - Own(cfg, n));
  }

  lemma {:induction false} AllPrecommit(cfg: Config, s: System, ns: set<Id>, at: Books, current: Block, hash: Hash32,
          voters: set<Id>) returns (actions: seq<Action>)
    requires forall n :: n in ns ==>
               n in s.nodes && Waiting(cfg, s.nodes[n], at, current, hash, Own(cfg, n)) && Suffices(cfg, at, n, voters)
    requires forall id :: id in voters ==> Eligible(cfg, at, id) && Prevote(at, hash, id) in s.votes
    ensures var t := Run(cfg, s, actions);
            && OnlyMoved(s, t, ns) && Proper(cfg, Next(at), s, actions)
            && (forall n :: n in ns ==>
                  && Ready(cfg, t.nodes[n], at, current, hash, Own(cfg, n))
                  && (n in cfg.keyed ==> Precommit(at, hash, n) in t.votes))
    decreases ns
  {
    hide Run, AllMoveOn, Authentic, Waiting, Ready, Suffices, Eligible, Next, Own;
    if ns == {} {
      actions := [];
      NothingRuns(cfg, Next(at), s);
    } else {
      var n :| n in ns;
      var first := PrecommitsOn(cfg, s, n, at, current, hash, voters);
      var rest := AllPrecommit(cfg, Run(cfg, s, first), ns - {n}, at, current, hash, voters);
      RunConcat(cfg, Next(at), s, first, rest);
      actions := first + rest;
    }
  }

  lemma PrecommitStep(cfg: Config, s: System, n: Id, at: Books, current: Block, hash: Hash32, com: set<Id>, from: Id,
          now: nat)
    requires n in s.nodes && Ready(cfg, s.nodes[n], at, current, hash, com) && from !in com
    requires Eligible(cfg, at, from) && Precommit(at, hash, from) in s.votes
    ensures var a := DeliverVote(n, Precommit(at, hash, from), now);
            var t := Step(cfg, s, a);
            var c := CommitRecord(n, Next(at), 0, hash);
            && OnlyMoved(s, t, {n}) && t.received == s.received
            && (Moves(cfg, n, at.0, current, now) ==> MovesOn(cfg, Next(at), s, a))
            && if IsQuorum(com + {from}, TotalValidators(cfg, Next(at)))
               then t.nodes[n] == AfterCommit(cfg, n, Entered(cfg, at), current, now)
                    && c in t.commits && ExecutionRecord(c, current) in t.executions
               else Ready(cfg, t.nodes[n], at, current, hash, com + {from}) && MovesOn(cfg, Next(at), s, a)
  {
    HearsPrecommit(cfg, n, at, s.nodes[n], current, hash, com, from, now);
    assert s.nodes[n].store == at.0;
    hide OnVote, Ready, TotalValidators, Moves, IsQuorum, AfterCommit;
  }

  /** `n` hears precommits one by one until they are a quorum, and executes the proposal
      it took in last. */
  lemma {:induction false} HearsPrecommits(cfg: Config, s: System, n: Id, at: Books, current: Block, hash: Hash32,
          com: set<Id>, rest: set<Id>, now: nat) returns (actions: seq<Action>)
    requires n in s.nodes && Ready(cfg, s.nodes[n], at, current, hash, com)
    requires rest != {} && rest !! com && IsQuorum(com + rest, TotalValidators(cfg, Next(at)))
    requires forall id :: id in rest ==> Eligible(cfg, at, id) && Precommit(at, hash, id) in s.votes
    ensures var t := Run(cfg, s, actions);
            var c := CommitRecord(n, Next(at), 0, hash);
            && OnlyMoved(s, t, {n}) && t.received == s.received && Authentic(cfg, Next(at), actions)
            && t.nodes[n] == AfterCommit(cfg, n, Entered(cfg, at), current, now)
            && c in t.commits && ExecutionRecord(c, current) in t.executions
            && (Moves(cfg, n, at.0, current, now) ==> AllMoveOn(cfg, Next(at), s, actions))
    decreases rest
  {
    var from :| from in rest;
    var a := DeliverVote(n, Precommit(at, hash, from), now);
    hide Step, MovesOn, Run, Authentic, AllMoveOn, Waiting, Ready, TotalValidators, IsQuorum, Moves, AfterCommit,
          Eligible, Next, Prevote, Precommit;
    PrecommitStep(cfg, s, n, at, current, hash, com, from, now);
    var t := Step(cfg, s, a);
    OneStep(cfg, Next(at), s, a);
    if IsQuorum(com + {from}, TotalValidators(cfg, Next(at))) {
      actions := [a];
    } else {
      assert com + rest == (com + {from}) + (rest - {from});
      assert rest - {from} == {} ==> com + rest == com + {from};
      var more := HearsPrecommits(cfg, t, n, at, current, hash, com + {from}, rest - {from}, now);
      RunConcat(cfg, Next(at), s, [a], more);
      actions := [a] + more;
    }
  }

  lemma CommitsOn(cfg: Config, s: System, n: Id, at: Books, current: Block, hash: Hash32, voters: set<Id>, now: nat)
    returns (actions: seq<Action>)
    requires n in s.nodes && Ready(cfg, s.nodes[n], at, current, hash, Own(cfg, n)) && Suffices(cfg, at, n, voters)
    requires forall id :: id in voters ==> Eligible(cfg, at, id) && Precommit(at, hash, id) in s.votes
    ensures var t := Run(cfg, s, actions);
            var c := CommitRecord(n, Next(at), 0, hash);
            && OnlyMoved(s, t, {n}) && Authentic(cfg, Next(at), actions)
            && t.nodes[n] == AfterCommit(cfg, n, Entered(cfg, at), current, now)
            && c in t.commits && ExecutionRecord(c, current) in t.executions
            && (Moves(cfg, n, at.0, current, now) ==> AllMoveOn(cfg, Next(at), s, actions))
  {
    hide Run, AllMoveOn, Authentic, Ready, Enter, TotalValidators, Next, IsQuorum, Moves, AfterCommit, Eligible;
    assert Own(cfg, n) + (voters - Own(cfg, n)) == voters + Own(cfg, n);
    actions := HearsPrecommits(cfg, s, n, at, current, hash, Own(cfg, n), voters - Own(cfg, n), now);
  }

  lemma {:induction false} Forges(cfg: Config, height: nat, s: System, votes: set<Vote>) returns (actions: seq<Action>)
    requires forall v :: v in votes ==> v.validatorId !in cfg.keyed
    ensures Run(cfg, s, actions) == s.(votes := s.votes + votes) && Proper(cfg, height, s, actions)
    decreases votes
  {
    if votes == {} {
      actions := [];
      NothingRuns(cfg, height, s);
      assert s.votes + votes == s.votes;
    } else {
      var v :| v in votes;
      var t := s.(votes := s.votes + {v});
      OneStep(cfg, height, s, Forge(v));
      var rest := Forges(cfg, height, t, votes - {v});
      RunConcat(cfg, height, s, [Forge(v)], rest);
      actions := [Forge(v)] + rest;
      assert (s.votes + {v}) + (votes - {v}) == s.votes + votes;
    }
  }

  /** Prevotes that were sent are replayed as precommits. */
  lemma {:induction false} Replays(cfg: Config, s: System, at: Books, hash: Hash32, ids: set<Id>)
    returns (actions: seq<Action>)
    requires forall id :: id in ids ==> Prevote(at, hash, id) in s.votes
    ensures var t := Run(cfg, s, actions);
            && OnlyMoved(s, t, {}) && AllMoveOn(cfg, Next(at), s, actions)
            && forall id :: id in ids ==> Precommit(at, hash, id) in t.votes
    decreases ids
  {
    if ids == {} {
      actions := [];
    } else {
      var id :| id in ids;
      var a := Replay(Prevote(at, hash, id), Next(at), 0, VoteType.Precommit);
      OneStep(cfg, Next(at), s, a);
      var rest := Replays(cfg, Step(cfg, s, a), at, hash, ids - {id});
      RunConcat(cfg, Next(at), s, [a], rest);
      actions := [a] + rest;
    }
  }

  // --------------------------------------------------- past the bound of agreement

  /** The nodes all have the same ledger at the start. */
  function Ledgers(nodes: set<Id>, at: Books): map<Id, Books> {
    map n | n in nodes :: at
  }

  lemma StartNodes(cfg: Config, nodes: set<Id>, at: Books)
    ensures Start(cfg, Ledgers(nodes, at)).nodes.Keys == nodes
    ensures forall n :: n in nodes ==> Start(cfg, Ledgers(nodes, at)).nodes[n] == Entered(cfg, at)
  {
  }

  /** Ids that are no honest keys vote for the hash, in both phases. */
  lemma ForgesBoth(cfg: Config, s: System, at: Books, hash: Hash32, ids: set<Id>) returns (actions: seq<Action>)
    requires ids !! cfg.keyed
    ensures var t := Run(cfg, s, actions);
            && OnlyMoved(s, t, {}) && t.received == s.received && Proper(cfg, Next(at), s, actions)
            && forall id :: id in ids ==> Prevote(at, hash, id) in t.votes && Precommit(at, hash, id) in t.votes
  {
    hide Run, AllMoveOn, Authentic;
    var votes := (set id | id in ids :: Prevote(at, hash, id)) + (set id | id in ids :: Precommit(at, hash, id));
    actions := Forges(cfg, Next(at), s, votes);
  }

  /** Of the voters `all`, `p` precommit for `c` and `q` for `d`, with no honest key in
      both; everybody gets a quorum of prevotes, and `c` and `d` one of precommits. */
  ghost predicate Splits(cfg: Config, at: Books, all: set<Id>, p: set<Id>, q: set<Id>, c: Id, d: Id) {
    && p <= all && q <= all && p * q !! cfg.keyed && c != d
    && (forall id :: id in all ==> Eligible(cfg, at, id))
    && c !in q * cfg.keyed && d !in p * cfg.keyed
    && (c in all * cfg.keyed ==> c in p) && (d in all * cfg.keyed ==> d in q)
    && (forall n :: n in p * cfg.keyed + q * cfg.keyed + {c, d} ==> Suffices(cfg, at, n, all))
    && Suffices(cfg, at, c, p) && Suffices(cfg, at, d, q)
  }

  /** All honest voters take in both blocks, `forA` in one order and `forB` in the other, and
      all other voters vote for both in both phases. */
  lemma SplitProposals(cfg: Config, at: Books, s: System, all: set<Id>, forA: set<Id>, forB: set<Id>, a: Block,
          b: Block)
    returns (actions: seq<Action>)
    requires forA !! forB && all * cfg.keyed <= forA + forB
    requires forall n :: n in forA + forB ==> n in s.nodes && s.nodes[n] == Entered(cfg, at)
    requires a.header.height == b.header.height == Next(at) && HashOf(cfg, a) != HashOf(cfg, b)
    ensures var t := Run(cfg, s, actions);
            && OnlyMoved(s, t, forA + forB) && Proper(cfg, Next(at), s, actions)
            && (forall n :: n in forA ==> Waiting(cfg, t.nodes[n], at, a, HashOf(cfg, a), Own(cfg, n)))
            && (forall n :: n in forB ==> Waiting(cfg, t.nodes[n], at, b, HashOf(cfg, b), Own(cfg, n)))
            && forall id :: id in all ==>
                 && Prevote(at, HashOf(cfg, a), id) in t.votes && Prevote(at, HashOf(cfg, b), id) in t.votes
                 && (id in cfg.keyed || (Precommit(at, HashOf(cfg, a), id) in t.votes
                                         && Precommit(at, HashOf(cfg, b), id) in t.votes))
  {
    var height := Next(at);
    var others := all - cfg.keyed;
    hide Run, AllMoveOn, Authentic, Waiting, Enter, HashOf, TotalValidators, Next, Prevote, Precommit;
    var forgeA := ForgesBoth(cfg, s, at, HashOf(cfg, a), others);
    var s0 := Run(cfg, s, forgeA);
    var forgeB := ForgesBoth(cfg, s0, at, HashOf(cfg, b), others);
    var s1 := Run(cfg, s0, forgeB);
    var second := AllTake(cfg, s1, forA, at, b, a);
    var s2 := Run(cfg, s1, second);
    var third := AllTake(cfg, s2, forB, at, a, b);
    var s3 := Run(cfg, s2, third);
    forall id | id in all && id in cfg.keyed
      ensures Prevote(at, HashOf(cfg, a), id) in s3.votes && Prevote(at, HashOf(cfg, b), id) in s3.votes
    {
      assert id in all * cfg.keyed;
      if id in forA {
        assert Took(cfg, s2, id, at, b, a);
      } else {
        assert Took(cfg, s3, id, at, a, b);
      }
    }
    RunConcat(cfg, height, s1, second, third);
    RunConcat(cfg, height, s0, forgeB, second + third);
    RunConcat(cfg, height, s, forgeA, forgeB + (second + third));
    actions := forgeA + (forgeB + (second + third));
  }

  lemma SplitCommits(cfg: Config, at: Books, s: System, p: set<Id>, q: set<Id>, c: Id, d: Id, a: Block, b: Block,
          now: nat)
    returns (actions: seq<Action>)
    requires c != d && c in s.nodes && d in s.nodes
    requires Ready(cfg, s.nodes[c], at, a, HashOf(cfg, a), Own(cfg, c))
    requires Ready(cfg, s.nodes[d], at, b, HashOf(cfg, b), Own(cfg, d))
    requires Suffices(cfg, at, c, p) && Suffices(cfg, at, d, q)
    requires forall id :: id in p ==> Eligible(cfg, at, id) && Precommit(at, HashOf(cfg, a), id) in s.votes
    requires forall id :: id in q ==> Eligible(cfg, at, id) && Precommit(at, HashOf(cfg, b), id) in s.votes
    ensures var t := Run(cfg, s, actions);
            && Authentic(cfg, Next(at), actions)
            && (Moves(cfg, c, at.0, a, now) && Moves(cfg, d, at.0, b, now) ==> AllMoveOn(cfg, Next(at), s, actions))
            && ExecutionRecord(CommitRecord(c, Next(at), 0, HashOf(cfg, a)), a) in t.executions
            && ExecutionRecord(CommitRecord(d, Next(at), 0, HashOf(cfg, b)), b) in t.executions
            && CommitRecord(c, Next(at), 0, HashOf(cfg, a)) in t.commits
            && CommitRecord(d, Next(at), 0, HashOf(cfg, b)) in t.commits
  {
    hide Run, AllMoveOn, Authentic, Ready, Enter, HashOf, Suffices, Next, Moves, AfterCommit, Precommit, Eligible, Own;
    var first := CommitsOn(cfg, s, c, at, a, HashOf(cfg, a), p, now);
    var second := CommitsOn(cfg, Run(cfg, s, first), d, at, b, HashOf(cfg, b), q, now);
    RunConcat(cfg, Next(at), s, first, second);
    actions := first + second;
  }

  lemma SplitVote(cfg: Config, at: Books, all: set<Id>, p: set<Id>, q: set<Id>, c: Id, d: Id, a: Block, b: Block,
          now: nat) returns (actions: seq<Action>)
    requires Splits(cfg, at, all, p, q, c, d)
    requires a.header.height == b.header.height == Next(at) && HashOf(cfg, a) != HashOf(cfg, b)
    requires Moves(cfg, c, at.0, a, now) && Moves(cfg, d, at.0, b, now)
    ensures var s := Start(cfg, Ledgers(all * cfg.keyed + {c, d}, at));
            var t := Run(cfg, s, actions);
            && Proper(cfg, Next(at), s, actions)
            && ExecutionRecord(CommitRecord(c, Next(at), 0, HashOf(cfg, a)), a) in t.executions
            && ExecutionRecord(CommitRecord(d, Next(at), 0, HashOf(cfg, b)), b) in t.executions
            && CommitRecord(c, Next(at), 0, HashOf(cfg, a)) in t.commits
            && CommitRecord(d, Next(at), 0, HashOf(cfg, b)) in t.commits
  {
    var (height, first, second) := (Next(at), HashOf(cfg, a), HashOf(cfg, b));
    var nodes := all * cfg.keyed + {c, d};
    var (pc, qd) := (p * cfg.keyed + {c}, q * cfg.keyed + {d});
    var s := Start(cfg, Ledgers(nodes, at));
    StartNodes(cfg, nodes, at);
    hide Start, Ledgers, Run, AllMoveOn, Authentic, Waiting, Ready, Enter, HashOf, Suffices, Next, Moves, AfterCommit,
         Prevote, Precommit, Eligible, Own;
    var propose := SplitProposals(cfg, at, s, all, nodes - qd, qd, a, b);
    var s1 := Run(cfg, s, propose);
    var precommitA := AllPrecommit(cfg, s1, pc, at, a, first, all);
    var s2 := Run(cfg, s1, precommitA);
    var precommitB := AllPrecommit(cfg, s2, qd, at, b, second, all);
    var s3 := Run(cfg, s2, precommitB);
    var commit := SplitCommits(cfg, at, s3, p, q, c, d, a, b, now);
    RunConcat(cfg, height, s2, precommitB, commit);
    RunConcat(cfg, height, s1, precommitA, precommitB + commit);
    RunConcat(cfg, height, s, propose, precommitA + (precommitB + commit));
    actions := propose + (precommitA + (precommitB + commit));
  }

  lemma SubsetOfSize(all: set<Id>, must: set<Id>, size: nat) returns (part: set<Id>)
    requires must <= all && |must| <= size <= |all|
    ensures must <= part <= all && |part| == size
    decreases size - |must|
  {
    if |must| == size {
      part := must;
    } else {
      assert all == must + (all - must);
      assert all - must != {};
      var id :| id in all - must;
      assert |must + {id}| == |must| + 1;
      part := SubsetOfSize(all, must + {id}, size);
    }
  }

  /** How many of the honest validators go to the first part. */
  lemma PartSize(n: nat, faulty: nat, honest: nat, x: nat, y: nat, mustC: nat, mustD: nat) returns (size: nat)
    requires n == faulty + honest && n > 0 && mustC + mustD <= honest && mustC <= 1 && mustD <= 1
    requires x <= QuorumSize(n) && y <= QuorumSize(n) && x + y <= n + faulty
    requires (mustC == 1 ==> x == QuorumSize(n)) && (mustD == 1 ==> y == QuorumSize(n))
    ensures mustC <= size <= honest - mustD
    ensures faulty + size >= x && faulty + (honest - size) >= y
  {
    size := if x > faulty + mustC then x - faulty else mustC;
  }

  lemma SizesAdd(all: set<Id>, keyed: set<Id>)
    ensures |all| == |all - keyed| + |all * keyed|
  {
    assert all == (all - keyed) + (all * keyed);
  }

  lemma SizeWithout(s: set<Id>, x: Id)
    ensures |s - {x}| == |s| - (if x in s then 1 else 0)
    ensures |s * {x}| == if x in s then 1 else 0
  {
    if x in s {
      assert s * {x} == {x};
    } else {
      assert s * {x} == {} && s - {x} == s;
    }
  }

  lemma BothIn(s: set<Id>, c: Id, d: Id)
    requires c != d
    ensures (if c in s then 1 else 0) + (if d in s then 1 else 0) <= |s|
  {
    SizeWithout(s, c);
    SizeWithout(s - {c}, d);
  }

  /** Past the bound the honest validators can be parted so that each part, with all
      faulty ones and the node's own vote, is a quorum. */
  lemma PartsExist(cfg: Config, height: nat, c: Id, d: Id) returns (p: set<Id>, q: set<Id>)
    requires cfg.validators(height) != {} && !Overlaps(cfg, height, c, d) && c != d
    ensures p + q == cfg.validators(height) && p * q == cfg.validators(height) - cfg.keyed
    ensures c !in q * cfg.keyed && d !in p * cfg.keyed
    ensures |p| + Stray(cfg, c, height) >= QuorumSize(|cfg.validators(height)|)
    ensures |q| + Stray(cfg, d, height) >= QuorumSize(|cfg.validators(height)|)
  {
    var all := cfg.validators(height);
    var (faulty, honest) := (all - cfg.keyed, all * cfg.keyed);
    SizesAdd(all, cfg.keyed);
    SizeWithout(honest, c);
    SizeWithout(honest, d);
    BothIn(honest, c, d);
    var (x, y) := (QuorumSize(|all|) - Stray(cfg, c, height), QuorumSize(|all|) - Stray(cfg, d, height));
    var size := PartSize(|all|, |faulty|, |honest|, x, y, |honest * {c}|, |honest * {d}|);
    hide QuorumSize, Overlaps, Stray;
    var part := SubsetOfSize(honest - {d}, honest * {c}, size);
    PartsAre(all, cfg.keyed, part);
    p, q := faulty + part, faulty + (honest - part);
    assert c in q * cfg.keyed ==> c in honest * {c};
  }

  lemma PartsAre(all: set<Id>, keyed: set<Id>, part: set<Id>)
    requires part <= all * keyed
    ensures var (faulty, honest) := (all - keyed, all * keyed);
            var (p, q) := (faulty + part, faulty + (honest - part));
            && p + q == all && p * q == faulty
            && |p| == |faulty| + |part| && |q| == |faulty| + (|honest| - |part|)
  {
    var (faulty, honest) := (all - keyed, all * keyed);
    assert honest == part + (honest - part);
    assert |honest| == |part| + |honest - part|;
  }

  lemma PartsSplit(cfg: Config, at: Books, c: Id, d: Id, p: set<Id>, q: set<Id>)
    requires cfg.validators(Next(at)) != {} && c != d
    requires CanCommit(cfg, Next(at))
    requires p + q == cfg.validators(Next(at)) && p * q == cfg.validators(Next(at)) - cfg.keyed
    requires c !in q * cfg.keyed && d !in p * cfg.keyed
    requires |p| + Stray(cfg, c, Next(at)) >= QuorumSize(|cfg.validators(Next(at))|)
    requires |q| + Stray(cfg, d, Next(at)) >= QuorumSize(|cfg.validators(Next(at))|)
    ensures Splits(cfg, at, cfg.validators(Next(at)), p, q, c, d)
  {
    hide TotalValidators, IsQuorum, Next;
    var all := cfg.validators(Next(at));
    assert TotalValidators(cfg, Next(at)) == |all| by {
      Total(cfg, Next(at));
    }
    forall n
      ensures Suffices(cfg, at, n, all)
    {
      NotOnlyOwn(cfg, Next(at), n, all);
      SubsetCard(all, all + Own(cfg, n));
      QuorumIsSize(all + Own(cfg, n), |all|);
    }
    OwnCompletes(cfg, Next(at), c, p);
    OwnCompletes(cfg, Next(at), d, q);
  }

  lemma Total(cfg: Config, height: nat)
    requires cfg.validators(height) != {}
    ensures TotalValidators(cfg, height) == |cfg.validators(height)|
  {
  }

  lemma NotOnlyOwn(cfg: Config, height: nat, n: Id, all: set<Id>)
    requires all == cfg.validators(height) && all != {} && CanCommit(cfg, height)
    ensures !(all <= Own(cfg, n))
  {
    assert all - cfg.keyed == {} ==> Faulty(cfg, height) == 0;
    if |all| > 1 {
      MoreThanOne(all, n);
    }
  }

  lemma OwnCompletes(cfg: Config, height: nat, n: Id, p: set<Id>)
    requires cfg.validators(height) - cfg.keyed <= p <= cfg.validators(height) && cfg.validators(height) != {}
    requires CanCommit(cfg, height)
    requires |p| + Stray(cfg, n, height) >= QuorumSize(|cfg.validators(height)|)
    ensures !(p <= Own(cfg, n)) && IsQuorum(p + Own(cfg, n), |cfg.validators(height)|)
  {
    var all := cfg.validators(height);
    QuorumIsSize(p + Own(cfg, n), |all|);
    if Stray(cfg, n, height) == 1 {
      assert n !in p && |p + {n}| == |p| + 1;
      assert p + Own(cfg, n) == p + {n};
      SubsetCard(all - cfg.keyed, p);
      assert p != {};
    } else {
      SubsetCard(p, p + Own(cfg, n));
      if p <= Own(cfg, n) {
        SubsetCard(p, {n});
      }
    }
  }

  /** At the height after this ledger, in a run of the honest validators and these two
      nodes that `Safety` speaks about, the two commit different blocks in one round. */
  ghost predicate Disagrees(cfg: Config, at: Books, c: Id, d: Id, actions: seq<Action>) {
    var s := Start(cfg, Ledgers(cfg.validators(Next(at)) * cfg.keyed + {c, d}, at));
    && Proper(cfg, Next(at), s, actions)
    && exists p, q :: p in Run(cfg, s, actions).commits && q in Run(cfg, s, actions).commits
                      && p.node == c && q.node == d && p.height == q.height == Next(at) && p.round == q.round
                      && p.hash != q.hash
  }

  /** More than one validator, or a faulty one; a single honest one never commits. */
  predicate CanCommit(cfg: Config, height: nat) {
    |cfg.validators(height)| > 1 || Faulty(cfg, height) > 0
  }

  lemma CommitsMean(cfg: Config, ledgers: map<Id, Books>, actions: seq<Action>, c: CommitRecord)
    requires cfg.validators(c.height) != {} && Authentic(cfg, c.height, actions)
    requires c in Run(cfg, Start(cfg, ledgers), actions).commits
    ensures CanCommit(cfg, c.height)
  {
    hide Run, Start, Authentic;
    if !CanCommit(cfg, c.height) {
      var x :| x in cfg.validators(c.height);
      assert x in cfg.keyed by {
        assert x !in cfg.validators(c.height) - cfg.keyed;
      }
      assert |cfg.validators(c.height) - {x}| == |cfg.validators(c.height)| - 1;
      assert cfg.validators(c.height) == {x} + (cfg.validators(c.height) - {x});
      Stalls.LoneValidatorNeverCommits(cfg, ledgers, actions, x, c);
      assert false;
    }
  }

  /** The bound of `Agreement` is exact. Given two blocks that the guards let through,
      some run makes two nodes disagree exactly when quorums counted at them need not
      share an honest validator, in a set of any size that can commit at all. */
  lemma AgreementIff(cfg: Config, at: Books, c: Id, d: Id, a: Block, b: Block, now: nat)
    requires cfg.validators(Next(at)) != {} && c != d
    requires a.header.height == b.header.height == Next(at) && HashOf(cfg, a) != HashOf(cfg, b)
    requires Moves(cfg, c, at.0, a, now) && Moves(cfg, d, at.0, b, now)
    ensures (exists actions :: Disagrees(cfg, at, c, d, actions)) <==>
              !Overlaps(cfg, Next(at), c, d) && CanCommit(cfg, Next(at))
  {
    hide Moves, HashOf, Next, Start, Run, AllMoveOn, Authentic, Splits;
    var all := cfg.validators(Next(at));
    var ledgers := Ledgers(all * cfg.keyed + {c, d}, at);
    var s := Start(cfg, ledgers);
    if actions :| Disagrees(cfg, at, c, d, actions) {
      var p, q :| p in Run(cfg, s, actions).commits && q in Run(cfg, s, actions).commits
        && p.node == c && q.node == d && p.height == q.height == Next(at) && p.round == q.round && p.hash != q.hash;
      CommitsMean(cfg, ledgers, actions, p);
      if Overlaps(cfg, Next(at), c, d) {
        Agreement(cfg, ledgers, actions, p, q);
        assert false;
      }
    }
    if !Overlaps(cfg, Next(at), c, d) && CanCommit(cfg, Next(at)) {
      var p, q := PartsExist(cfg, Next(at), c, d);
      PartsSplit(cfg, at, c, d, p, q);
      var actions := SplitVote(cfg, at, all, p, q, c, d, a, b, now);
      assert Disagrees(cfg, at, c, d, actions);
    }
  }

  /** With honest validators alone, two key holders outside the set can disagree when
      the set has two or four validators, and in no other set of more than one. */
  lemma OutsidersDisagreeIff(cfg: Config, at: Books, c: Id, d: Id, a: Block, b: Block, now: nat)
    requires |cfg.validators(Next(at))| > 1 && cfg.validators(Next(at)) <= cfg.keyed && c != d
    requires c in cfg.keyed - cfg.validators(Next(at)) && d in cfg.keyed - cfg.validators(Next(at))
    requires a.header.height == b.header.height == Next(at) && HashOf(cfg, a) != HashOf(cfg, b)
    requires Moves(cfg, c, at.0, a, now) && Moves(cfg, d, at.0, b, now)
    ensures (exists actions :: Disagrees(cfg, at, c, d, actions)) <==> |cfg.validators(Next(at))| in {2, 4}
  {
    hide Moves, HashOf, Next, Disagrees;
    assert cfg.validators(Next(at)) - cfg.keyed == {};
    AgreementIff(cfg, at, c, d, a, b, now);
  }

  /** Where no validator is registered the code counts the votes of any id against four
      validators: any six honest nodes can execute two blocks in one round. */
  lemma EmptySetDisagrees(cfg: Config, at: Books, p: set<Id>, q: set<Id>, c: Id, d: Id, a: Block, b: Block, now: nat)
    returns (actions: seq<Action>)
    requires cfg.validators(Next(at)) == {} && p + q <= cfg.keyed && p !! q
    requires |p| == |q| == 3 && c in p && d in q
    requires a.header.height == b.header.height == Next(at) && HashOf(cfg, a) != HashOf(cfg, b)
    requires Moves(cfg, c, at.0, a, now) && Moves(cfg, d, at.0, b, now)
    ensures var s := Start(cfg, Ledgers(p + q, at));
            var t := Run(cfg, s, actions);
            && Proper(cfg, Next(at), s, actions)
            && ExecutionRecord(CommitRecord(c, Next(at), 0, HashOf(cfg, a)), a) in t.executions
            && ExecutionRecord(CommitRecord(d, Next(at), 0, HashOf(cfg, b)), b) in t.executions
  {
    assert (p + q) * cfg.keyed + {c, d} == p + q;
    CrowdSplits(cfg, at, p, q, c, d);
    hide Splits, Moves, HashOf, Next, Start, Run, AllMoveOn, Authentic;
    actions := SplitVote(cfg, at, p + q, p, q, c, d, a, b, now);
  }

  lemma CrowdSplits(cfg: Config, at: Books, p: set<Id>, q: set<Id>, c: Id, d: Id)
    requires cfg.validators(Next(at)) == {} && p + q <= cfg.keyed && p !! q
    requires |p| == |q| == 3 && c in p && d in q
    ensures Splits(cfg, at, p + q, p, q, c, d)
  {
    hide Next;
    var all := p + q;
    assert |all| == 6;
    forall n | n in p * cfg.keyed + q * cfg.keyed + {c, d}
      ensures Suffices(cfg, at, n, all)
    {
      assert all + Own(cfg, n) == all;
      MoreThanOne(all, n);
    }
    assert p + Own(cfg, c) == p && q + Own(cfg, d) == q;
    MoreThanOne(p, c);
    MoreThanOne(q, d);
  }

  lemma MoreThanOne(all: set<Id>, n: Id)
    requires |all| > 1
    ensures !(all <= {n})
  {
    if all <= {n} {
      SubsetCard(all, {n});
    }
  }

  // ---------------------------------------------------- past the bound of validity

  /** In a run without replays into the height, the node commits a hash that no honest
      validator took in. */
  ghost predicate Unvouched(cfg: Config, at: Books, c: Id, actions: seq<Action>) {
    var t := Run(cfg, Start(cfg, Ledgers({c}, at)), actions);
    && Authentic(cfg, Next(at), actions)
    && exists p :: p in t.commits && p.node == c && p.height == Next(at)
                   && forall id :: id in cfg.validators(Next(at)) * cfg.keyed ==>
                        Receipt(id, Next(at), p.hash) !in t.received
  }

  /** The node hears the same voters in both phases, and commits. */
  lemma HearsAll(cfg: Config, s: System, c: Id, at: Books, a: Block, hash: Hash32, pre: set<Id>, voters: set<Id>,
          now: nat) returns (actions: seq<Action>)
    requires c in s.nodes && Waiting(cfg, s.nodes[c], at, a, hash, pre) && pre <= Own(cfg, c)
    requires voters != {} && voters !! Own(cfg, c) && IsQuorum(pre + voters, TotalValidators(cfg, Next(at)))
    requires forall id :: id in voters ==>
               Eligible(cfg, at, id) && Prevote(at, hash, id) in s.votes && Precommit(at, hash, id) in s.votes
    ensures var t := Run(cfg, s, actions);
            && Authentic(cfg, Next(at), actions) && CommitRecord(c, Next(at), 0, hash) in t.commits
            && t.received == s.received
  {
    hide Run, AllMoveOn, Authentic, Waiting, Ready, Enter, HashOf, TotalValidators, Next, IsQuorum, AfterCommit, Moves,
         Eligible, Prevote, Precommit;
    var hear := HearsPrevotes(cfg, s, c, at, a, hash, pre, voters);
    QuorumGrowsTo(pre + voters, Own(cfg, c) + voters, TotalValidators(cfg, Next(at)));
    var commit := HearsPrecommits(cfg, Run(cfg, s, hear), c, at, a, hash, Own(cfg, c), voters, now);
    RunConcat(cfg, Next(at), s, hear, commit);
    actions := hear + commit;
  }

  /** The node takes in a block, and the faulty validators vote for this hash. */
  lemma FaultyCommit(cfg: Config, at: Books, c: Id, a: Block, hash: Hash32, faulty: set<Id>, now: nat)
    returns (actions: seq<Action>)
    requires a.header.height == Next(at) && faulty !! cfg.keyed && faulty != {}
    requires forall id :: id in faulty ==> Eligible(cfg, at, id)
    requires var own := OwnFor(cfg, c, a, hash);
             IsQuorum(own + faulty, TotalValidators(cfg, Next(at)))
    ensures var t := Run(cfg, Start(cfg, Ledgers({c}, at)), actions);
            && Authentic(cfg, Next(at), actions) && CommitRecord(c, Next(at), 0, hash) in t.commits
            && t.received == {Receipt(c, Next(at), HashOf(cfg, a))}
  {
    var s := Start(cfg, Ledgers({c}, at));
    StartNodes(cfg, {c}, at);
    assert s.received == {};
    hide Start, Ledgers, Run, AllMoveOn, Authentic, Waiting, Enter, HashOf, TotalValidators, Next, IsQuorum, Eligible;
    var own := OwnFor(cfg, c, a, hash);
    var forge := ForgesBoth(cfg, s, at, hash, faulty);
    var s1 := Run(cfg, s, forge);
    var take := TakesOne(cfg, s1, c, at, a, hash);
    var hear := HearsAll(cfg, Run(cfg, s1, take), c, at, a, hash, own, faulty, now);
    RunConcat(cfg, Next(at), s1, take, hear);
    RunConcat(cfg, Next(at), s, forge, take + hear);
    actions := forge + (take + hear);
  }

  lemma QuorumGrowsTo(p: set<Id>, q: set<Id>, total: nat)
    requires p <= q && IsQuorum(p, total)
    ensures IsQuorum(q, total)
  {
    SubsetCard(p, q);
  }

  /** The bound of `Validity` is exact, too. */
  lemma ValidityIff(cfg: Config, at: Books, c: Id, a: Block, b: Block)
    requires cfg.validators(Next(at)) != {}
    requires a.header.height == b.header.height == Next(at) && HashOf(cfg, a) != HashOf(cfg, b)
    ensures (exists actions :: Unvouched(cfg, at, c, actions)) <==>
              !Outvotes(cfg, Next(at), c) && CanCommit(cfg, Next(at))
  {
    hide HashOf, Next, Start, Run, Authentic;
    var (all, height) := (cfg.validators(Next(at)), Next(at));
    var ledgers := Ledgers({c}, at);
    if actions :| Unvouched(cfg, at, c, actions) {
      var t := Run(cfg, Start(cfg, ledgers), actions);
      var p :| p in t.commits && p.node == c && p.height == height
        && forall id :: id in all * cfg.keyed ==> Receipt(id, height, p.hash) !in t.received;
      CommitsMean(cfg, ledgers, actions, p);
      if Outvotes(cfg, height, c) {
        var id := Validity(cfg, ledgers, actions, p);
        assert false;
      }
    }
    if !Outvotes(cfg, height, c) && CanCommit(cfg, height) {
      var faulty := all - cfg.keyed;
      var taken := if Stray(cfg, c, height) == 1 then a else b;
      FaultyQuorum(cfg, height, c);
      var actions := FaultyCommit(cfg, at, c, taken, HashOf(cfg, a), faulty, 0);
      var t := Run(cfg, Start(cfg, ledgers), actions);
      assert CommitRecord(c, height, 0, HashOf(cfg, a)) in t.commits;
      assert Unvouched(cfg, at, c, actions);
    }
  }

  lemma FaultyQuorum(cfg: Config, height: nat, c: Id)
    requires CanCommit(cfg, height)
    requires !Outvotes(cfg, height, c)
    ensures cfg.validators(height) - cfg.keyed != {}
    ensures IsQuorum((if Stray(cfg, c, height) == 1 then Own(cfg, c) else {}) + (cfg.validators(height) - cfg.keyed),
                     TotalValidators(cfg, height))
  {
    var (all, faulty) := (cfg.validators(height), cfg.validators(height) - cfg.keyed);
    SubsetCard(faulty, all);
    Total(cfg, height);
    if Stray(cfg, c, height) == 1 {
      assert |{c} + faulty| == |faulty| + 1;
      QuorumIsSize(Own(cfg, c) + faulty, |all|);
    } else {
      assert {} + faulty == faulty;
      QuorumIsSize(faulty, |all|);
    }
  }

  // ------------------------------------------- without each of the other hypotheses

  /** Blocks that move a validator on exist at every tip: a signed block without
      transactions is one. */
  lemma SignedEmptyBlockMoves(cfg: Config, id: Id, at: Books, block: Block, now: nat)
    requires at.0.chainHeight.Some? && block.header.height == Next(at)
    requires block.aggregateSig != [] && block.transactions == [] && block.header.timestamp <= now
    ensures Moves(cfg, id, at.0, block, now)
  {
  }

  /** There are two validators at least, and all are honest. */
  predicate AllHonest(cfg: Config, height: nat) {
    |cfg.validators(height)| > 1 && cfg.validators(height) <= cfg.keyed
  }

  lemma HonestBounds(cfg: Config, height: nat, n: Id, m: Id)
    requires AllHonest(cfg, height) && n in cfg.validators(height) && m in cfg.validators(height)
    ensures Overlaps(cfg, height, n, m) && Outvotes(cfg, height, n)
    ensures TotalValidators(cfg, height) > 1
  {
    assert cfg.validators(height) - cfg.keyed == {};
  }

  lemma HonestSuffices(cfg: Config, at: Books, n: Id)
    requires AllHonest(cfg, Next(at)) && n in cfg.validators(Next(at))
    ensures Suffices(cfg, at, n, cfg.validators(Next(at)))
  {
    MoreThanOne(cfg.validators(Next(at)), n);
    assert cfg.validators(Next(at)) + Own(cfg, n) == cfg.validators(Next(at));
  }

  /** All validators take in `a` and then `b`, and precommit `a`. */
  lemma HonestPrecommit(cfg: Config, s: System, at: Books, all: set<Id>, a: Block, b: Block)
    returns (actions: seq<Action>)
    requires AllHonest(cfg, Next(at)) && all == cfg.validators(Next(at))
    requires forall n :: n in all ==> n in s.nodes && s.nodes[n] == Entered(cfg, at)
    requires a.header.height == b.header.height == Next(at)
    ensures var t := Run(cfg, s, actions);
            && OnlyMoved(s, t, all) && Proper(cfg, Next(at), s, actions)
            && forall n :: n in all ==>
                 && Ready(cfg, t.nodes[n], at, b, HashOf(cfg, a), Own(cfg, n))
                 && Precommit(at, HashOf(cfg, a), n) in t.votes
  {
    hide Run, AllMoveOn, Authentic, Waiting, Ready, Enter, HashOf, TotalValidators, Next, Suffices, Prevote, Precommit,
         Own;
    Total(cfg, Next(at));
    forall n | n in all
      ensures Suffices(cfg, at, n, all)
    {
      HonestSuffices(cfg, at, n);
    }
    var take := AllTake(cfg, s, all, at, a, b);
    var s1 := Run(cfg, s, take);
    forall n | n in all
      ensures n in s1.nodes && Waiting(cfg, s1.nodes[n], at, b, HashOf(cfg, a), Own(cfg, n))
      ensures Eligible(cfg, at, n) && Prevote(at, HashOf(cfg, a), n) in s1.votes && n in cfg.keyed
    {
      assert Took(cfg, s1, n, at, a, b);
    }
    hide Took;
    var hear := AllPrecommit(cfg, s1, all, at, b, HashOf(cfg, a), all);
    RunConcat(cfg, Next(at), s, take, hear);
    actions := take + hear;
  }

  /** All of `ns` hear the precommits of all validators. */
  lemma {:induction false} HonestCommit(cfg: Config, s: System, at: Books, ns: set<Id>, all: set<Id>, b: Block,
          hash: Hash32, now: nat) returns (actions: seq<Action>)
    requires AllHonest(cfg, Next(at)) && all == cfg.validators(Next(at)) && ns <= all
    requires forall n :: n in ns ==> n in s.nodes && Ready(cfg, s.nodes[n], at, b, hash, Own(cfg, n))
    requires forall n :: n in all ==> Precommit(at, hash, n) in s.votes
    ensures var t := Run(cfg, s, actions);
            && OnlyMoved(s, t, ns) && Authentic(cfg, Next(at), actions)
            && (forall n :: n in ns ==>
                  && t.nodes[n] == AfterCommit(cfg, n, Entered(cfg, at), b, now)
                  && CommitRecord(n, Next(at), 0, hash) in t.commits
                  && ExecutionRecord(CommitRecord(n, Next(at), 0, hash), b) in t.executions)
            && ((forall n :: n in ns ==> Moves(cfg, n, at.0, b, now)) ==> AllMoveOn(cfg, Next(at), s, actions))
    decreases ns
  {
    hide Run, AllMoveOn, Authentic, Ready, Enter, Suffices, Next, Moves, AfterCommit, Precommit, Own;
    if ns == {} {
      actions := [];
      NothingRuns(cfg, Next(at), s);
    } else {
      var n :| n in ns;
      HonestSuffices(cfg, at, n);
      var first := CommitsOn(cfg, s, n, at, b, hash, all, now);
      var rest := HonestCommit(cfg, Run(cfg, s, first), at, ns - {n}, all, b, hash, now);
      RunConcat(cfg, Next(at), s, first, rest);
      actions := first + rest;
    }
  }

  /** The last proposal is executed, not the committed one: without the hypothesis of one
      proposal, each validator executes the second block when the first one commits. */
  lemma ExecutesAnotherBlock(cfg: Config, at: Books, x: Id, a: Block, b: Block, now: nat) returns (actions: seq<Action>)
    requires AllHonest(cfg, Next(at)) && x in cfg.validators(Next(at))
    requires a.header.height == b.header.height == Next(at) && HashOf(cfg, a) != HashOf(cfg, b)
    requires Moves(cfg, x, at.0, b, now)
    ensures var s := Start(cfg, Ledgers(cfg.validators(Next(at)), at));
            && Proper(cfg, Next(at), s, actions) && Outvotes(cfg, Next(at), x)
            && ExecutionRecord(CommitRecord(x, Next(at), 0, HashOf(cfg, a)), b) in Run(cfg, s, actions).executions
  {
    hide Start, Ledgers, Run, AllMoveOn, Authentic, Ready, Enter, HashOf, Next, Moves, AfterCommit, Precommit, Outvotes;
    var all := cfg.validators(Next(at));
    var s := Start(cfg, Ledgers(all, at));
    StartNodes(cfg, all, at);
    HonestBounds(cfg, Next(at), x, x);
    var first := HonestPrecommit(cfg, s, at, all, a, b);
    var second := HonestCommit(cfg, Run(cfg, s, first), at, {x}, all, b, HashOf(cfg, a), now);
    RunConcat(cfg, Next(at), s, first, second);
    actions := first + second;
  }

  /** A block without an aggregate signature changes nothing on a validator, which
      enters the same height again. */
  lemma UnsignedStays(cfg: Config, id: Id, at: Books, block: Block, now: nat)
    requires id in cfg.keyed && block.aggregateSig == []
    ensures AfterCommit(cfg, id, Entered(cfg, at), block, now) == Entered(cfg, at)
    ensures block.header.height == Next(at) ==> !Moves(cfg, id, at.0, block, now)
  {
  }

  /** All validators take in a block without signature, commit it, and are where they were. */
  lemma UnsignedRound(cfg: Config, s: System, at: Books, all: set<Id>, a: Block, now: nat)
    returns (actions: seq<Action>)
    requires AllHonest(cfg, Next(at)) && all == cfg.validators(Next(at))
    requires forall n :: n in all ==> n in s.nodes && s.nodes[n] == Entered(cfg, at)
    requires a.header.height == Next(at) && a.aggregateSig == []
    ensures var t := Run(cfg, s, actions);
            && OnlyMoved(s, t, all) && Authentic(cfg, Next(at), actions)
            && forall n :: n in all ==>
                 t.nodes[n] == Entered(cfg, at) && CommitRecord(n, Next(at), 0, HashOf(cfg, a)) in t.commits
  {
    hide Run, AllMoveOn, Authentic, Ready, Enter, HashOf, Next, Moves, AfterCommit, Precommit;
    forall n | n in all
      ensures AfterCommit(cfg, n, Entered(cfg, at), a, now) == Entered(cfg, at)
    {
      UnsignedStays(cfg, n, at, a, now);
    }
    var first := HonestPrecommit(cfg, s, at, all, a, a);
    var second := HonestCommit(cfg, Run(cfg, s, first), at, all, all, a, HashOf(cfg, a), now);
    RunConcat(cfg, Next(at), s, first, second);
    actions := first + second;
  }

  /** Without the hypothesis that commits move nodes on, agreement fails: honest
      validators commit any two blocks that the builder made on their tip, one after the
      other, in the same height and round. */
  lemma RestartBreaksAgreement(cfg: Config, at: Books, x: Id, y: Id, txs: seq<Transaction>, more: seq<Transaction>,
          proposer: Hash32, vrf: Hash32, timestamp: nat, epoch: nat, now: nat) returns (actions: seq<Action>)
    requires AllHonest(cfg, Next(at)) && {x, y} <= cfg.validators(Next(at)) && at.0.chainHeight.Some?
    ensures var a := Builder.BuildBlock(cfg.env, at.0, txs, proposer, vrf, timestamp, epoch);
            var b := Builder.BuildBlock(cfg.env, at.0, more, proposer, vrf, timestamp, epoch);
            var commits := Run(cfg, Start(cfg, Ledgers(cfg.validators(Next(at)), at)), actions).commits;
            && Authentic(cfg, Next(at), actions) && Overlaps(cfg, Next(at), x, y)
            && CommitRecord(x, Next(at), 0, HashOf(cfg, a)) in commits
            && CommitRecord(y, Next(at), 0, HashOf(cfg, b)) in commits
  {
    var a := Builder.BuildBlock(cfg.env, at.0, txs, proposer, vrf, timestamp, epoch);
    var b := Builder.BuildBlock(cfg.env, at.0, more, proposer, vrf, timestamp, epoch);
    assert a.aggregateSig == b.aggregateSig == [] && a.header.height == b.header.height == Next(at);
    var all := cfg.validators(Next(at));
    var s := Start(cfg, Ledgers(all, at));
    StartNodes(cfg, all, at);
    HonestBounds(cfg, Next(at), x, y);
    hide Start, Ledgers, Run, AllMoveOn, Authentic, Enter, HashOf, Builder.BuildBlock, Next, Overlaps;
    var first := UnsignedRound(cfg, s, at, all, a, now);
    var second := UnsignedRound(cfg, Run(cfg, s, first), at, all, b, now);
    RunConcat(cfg, Next(at), s, first, second);
    actions := first + second;
  }

  /** `c` takes in `a` last and precommits it, `d` the same with `b`; all prevote both. */
  lemma CrossPrecommit(cfg: Config, s: System, at: Books, all: set<Id>, c: Id, d: Id, a: Block, b: Block)
    returns (actions: seq<Action>)
    requires AllHonest(cfg, Next(at)) && all == cfg.validators(Next(at)) && {c, d} <= all && c != d
    requires forall n :: n in all ==> n in s.nodes && s.nodes[n] == Entered(cfg, at)
    requires a.header.height == b.header.height == Next(at) && HashOf(cfg, a) != HashOf(cfg, b)
    ensures var t := Run(cfg, s, actions);
            && OnlyMoved(s, t, all) && Proper(cfg, Next(at), s, actions)
            && Ready(cfg, t.nodes[c], at, a, HashOf(cfg, a), Own(cfg, c))
            && Ready(cfg, t.nodes[d], at, b, HashOf(cfg, b), Own(cfg, d))
            && forall id :: id in all ==>
                 Prevote(at, HashOf(cfg, a), id) in t.votes && Prevote(at, HashOf(cfg, b), id) in t.votes
  {
    hide Run, AllMoveOn, Authentic, Waiting, Ready, Enter, HashOf, TotalValidators, Next, Suffices, Prevote, Precommit,
         Own;
    Total(cfg, Next(at));
    HonestSuffices(cfg, at, c);
    HonestSuffices(cfg, at, d);
    var takeA := AllTake(cfg, s, {c}, at, b, a);
    var s1 := Run(cfg, s, takeA);
    var takeB := AllTake(cfg, s1, all - {c}, at, a, b);
    var s2 := Run(cfg, s1, takeB);
    assert Took(cfg, s1, c, at, b, a) && Took(cfg, s2, d, at, a, b);
    forall id | id in all
      ensures Eligible(cfg, at, id)
      ensures Prevote(at, HashOf(cfg, a), id) in s2.votes && Prevote(at, HashOf(cfg, b), id) in s2.votes
    {
      assert id != c ==> Took(cfg, s2, id, at, a, b);
    }
    hide Took;
    var hearA := PrecommitsOn(cfg, s2, c, at, a, HashOf(cfg, a), all);
    var s3 := Run(cfg, s2, hearA);
    var hearB := PrecommitsOn(cfg, s3, d, at, b, HashOf(cfg, b), all);
    RunConcat(cfg, Next(at), s2, hearA, hearB);
    RunConcat(cfg, Next(at), s1, takeB, hearA + hearB);
    RunConcat(cfg, Next(at), s, takeA, takeB + (hearA + hearB));
    actions := takeA + (takeB + (hearA + hearB));
  }

  /** A vote's signature covers the block hash alone. Without the hypothesis that no vote
      is replayed into the height, agreement fails: honest prevotes pass for precommits,
      and two honest validators execute different blocks in one round. */
  lemma ReplayBreaksAgreement(cfg: Config, at: Books, c: Id, d: Id, a: Block, b: Block, now: nat)
    returns (actions: seq<Action>)
    requires AllHonest(cfg, Next(at)) && {c, d} <= cfg.validators(Next(at)) && c != d
    requires a.header.height == b.header.height == Next(at) && HashOf(cfg, a) != HashOf(cfg, b)
    requires Moves(cfg, c, at.0, a, now) && Moves(cfg, d, at.0, b, now)
    ensures var s := Start(cfg, Ledgers(cfg.validators(Next(at)), at));
            var t := Run(cfg, s, actions);
            && AllMoveOn(cfg, Next(at), s, actions) && Overlaps(cfg, Next(at), c, d)
            && ExecutionRecord(CommitRecord(c, Next(at), 0, HashOf(cfg, a)), a) in t.executions
            && ExecutionRecord(CommitRecord(d, Next(at), 0, HashOf(cfg, b)), b) in t.executions
  {
    hide Start, Ledgers, Run, AllMoveOn, Authentic, Waiting, Ready, Enter, HashOf, Suffices, Next, Moves, Prevote,
         Precommit, Overlaps, Own;
    var (height, all) := (Next(at), cfg.validators(Next(at)));
    var s := Start(cfg, Ledgers(all, at));
    StartNodes(cfg, all, at);
    HonestBounds(cfg, height, c, d);
    HonestSuffices(cfg, at, c);
    HonestSuffices(cfg, at, d);
    var cross := CrossPrecommit(cfg, s, at, all, c, d, a, b);
    var s1 := Run(cfg, s, cross);
    var replayA := Replays(cfg, s1, at, HashOf(cfg, a), all);
    var s2 := Run(cfg, s1, replayA);
    var replayB := Replays(cfg, s2, at, HashOf(cfg, b), all);
    var s3 := Run(cfg, s2, replayB);
    var commit := SplitCommits(cfg, at, s3, all, all, c, d, a, b, now);
    RunConcat(cfg, height, s2, replayB, commit);
    RunConcat(cfg, height, s1, replayA, replayB + commit);
    RunConcat(cfg, height, s, cross, replayA + (replayB + commit));
    actions := cross + (replayA + (replayB + commit));
  }
}
