/** Where the vote protocol stays put: nodes and validator sets that never move on,
    over every run. */
module Stalls {
  import opened Types
  import opened Bft
  import opened Consensus
  import opened Safety
  import Execution
  import Ledger
  import Mempool

  // ------------------------------------------------ blocks without a signature

  /** Validator `n` still has its first chain, and a block without signature at most. */
  predicate Halted(s: System, n: Id, height: Option<nat>) {
    && n in s.nodes && s.nodes[n].store.chainHeight == height
    && s.nodes[n].height == (if height.Some? then height.value else 0) + 1
    && (s.nodes[n].current.Some? ==> s.nodes[n].current.value.aggregateSig == [])
  }

  /** The blocks that are proposed and downloaded have no aggregate signature. */
  predicate Unsigned(a: Action) {
    && (a.DeliverBlock? ==> a.block.aggregateSig == [])
    && (a.Download? ==> a.block.aggregateSig == [])
  }

  lemma StepHalts(cfg: Config, s: System, a: Action, n: Id, height: Option<nat>)
    requires Halted(s, n, height) && n in cfg.keyed && Unsigned(a)
    ensures Halted(Step(cfg, s, a), n, height)
  {
    hide Ledger.PruneRange, Mempool.Insert, AddVote, TryAdvance, Accepts, NewRound, TotalValidators;
    match a
    case Prune(m, keepLast) =>
      var store := s.nodes[n].store;
      if Ledger.ChainHeight(store) > keepLast {
        PruningKeepsHeight(cfg.env, store, 0, Ledger.ChainHeight(store) - keepLast);
      }
    case _ =>
  }

  lemma {:induction false} RunHalts(cfg: Config, s: System, actions: seq<Action>, n: Id, height: Option<nat>)
    requires Halted(s, n, height) && n in cfg.keyed && forall i :: 0 <= i < |actions| ==> Unsigned(actions[i])
    ensures Halted(Run(cfg, s, actions), n, height)
    decreases |actions|
  {
    hide Halted, Step, Unsigned;
    if actions != [] {
      StepHalts(cfg, s, actions[0], n, height);
      RunHalts(cfg, Step(cfg, s, actions[0]), actions[1..], n, height);
    }
  }

  /** The builder is the only place that sets a block's aggregate signature, and it sets
      the empty one. As long as only such blocks go round, no validator's chain grows in
      any run, and its loop never leaves the height it started with. */
  lemma ValidatorsNeverAdvance(cfg: Config, ledgers: map<Id, Books>, actions: seq<Action>, n: Id)
    requires n in ledgers && n in cfg.keyed && forall i :: 0 <= i < |actions| ==> Unsigned(actions[i])
    ensures var s := Run(cfg, Start(cfg, ledgers), actions);
            && n in s.nodes && s.nodes[n].store.chainHeight == ledgers[n].0.chainHeight
            && s.nodes[n].height == Next(ledgers[n])
  {
    hide Run, Unsigned, NewRound;
    RunHalts(cfg, Start(cfg, ledgers), actions, n, ledgers[n].0.chainHeight);
  }

  // ---------------------------------------------------------- an empty chain

  /** Node `n` has no block, works on height 1 and holds a proposal for it at most. */
  predicate Unstarted(s: System, n: Id) {
    && n in s.nodes && s.nodes[n].store.chainHeight == None && s.nodes[n].height == 1
    && (s.nodes[n].current.Some? ==> s.nodes[n].current.value.header.height == 1)
  }

  lemma StepUnstarted(cfg: Config, s: System, a: Action, n: Id)
    requires Unstarted(s, n)
    ensures Unstarted(Step(cfg, s, a), n)
  {
    hide Execution.ExecuteBlock, Execution.Sound, Ledger.PruneHistory, Mempool.Insert, AddVote, TryAdvance, Accepts;
    var node := s.nodes[n];
    match a
    case DeliverVote(m, vote, now) =>
      if node.current.Some? {
        Execution.ExecutedHeight(cfg.env, LocalOf(cfg, n, now), node.store, node.pool, node.current.value);
      }
    case Download(m, block, now) =>
      Execution.ExecutedHeight(cfg.env, LocalOf(cfg, n, now), node.store, node.pool, block);
    case Prune(m, keepLast) =>
      assert Ledger.PruneHistory(cfg.env, node.store, keepLast) == (node.store, 0) by {
        ShortChainKept(cfg.env, node.store, keepLast);
      }
    case _ =>
  }

  lemma ShortChainKept(env: Env, s: Ledger.Store, keepLast: nat)
    requires s.chainHeight == None
    ensures Ledger.PruneHistory(env, s, keepLast) == (s, 0)
  {
  }

  lemma {:induction false} RunUnstarted(cfg: Config, s: System, actions: seq<Action>, n: Id)
    requires Unstarted(s, n)
    ensures Unstarted(Run(cfg, s, actions), n)
    decreases |actions|
  {
    hide Unstarted, Step;
    if actions != [] {
      StepUnstarted(cfg, s, actions[0], n);
      RunUnstarted(cfg, Step(cfg, s, actions[0]), actions[1..], n);
    }
  }

  /** A node without blocks enters height 1, because the height of the empty chain reads
      as 0, but its store expects a block of height 0. Over every run, whatever is
      proposed, voted and downloaded, it never applies a block. */
  lemma EmptyChainNeverStarts(cfg: Config, ledgers: map<Id, Books>, actions: seq<Action>, n: Id)
    requires n in ledgers && ledgers[n].0.chainHeight == None
    ensures var s := Run(cfg, Start(cfg, ledgers), actions);
            n in s.nodes && s.nodes[n].height == 1 && s.nodes[n].store.chainHeight == None
  {
    hide Run, NewRound;
    RunUnstarted(cfg, Start(cfg, ledgers), actions, n);
  }

  // ------------------------------------------------------ a loop left behind

  /** The loop of `n` works on `height`, and took in proposals of no other. */
  predicate WorksOn(s: System, n: Id, height: nat) {
    && n in s.nodes && s.nodes[n].height == height
    && forall r :: r in s.received && r.node == n ==> r.height == height
  }

  predicate ExecutedNothing(s: System, n: Id) {
    forall e :: e in s.executions ==> e.commit.node != n
  }

  lemma StepWorksOn(cfg: Config, s: System, a: Action, n: Id, height: nat)
    requires WorksOn(s, n, height) && ExecutedNothing(Step(cfg, s, a), n)
    ensures WorksOn(Step(cfg, s, a), n, height)
  {
    hide AfterCommit, Execution.ExecuteBlock, Ledger.PruneHistory, Mempool.Insert, AddVote, TryAdvance, Accepts;
  }

  lemma {:induction false} ExecutionsGrow(cfg: Config, s: System, actions: seq<Action>)
    ensures s.executions <= Run(cfg, s, actions).executions
    decreases |actions|
  {
    hide OnVote, OnBlock, OnTimeout, OnDownload, Ledger.PruneHistory, Mempool.Insert;
    if actions != [] {
      ExecutionsGrow(cfg, Step(cfg, s, actions[0]), actions[1..]);
    }
  }

  lemma {:induction false} RunWorksOn(cfg: Config, s: System, actions: seq<Action>, n: Id, height: nat)
    requires WorksOn(s, n, height) && ExecutedNothing(Run(cfg, s, actions), n)
    ensures WorksOn(Run(cfg, s, actions), n, height)
    decreases |actions|
  {
    hide WorksOn, Step;
    if actions != [] {
      var t := Step(cfg, s, actions[0]);
      ExecutionsGrow(cfg, t, actions[1..]);
      StepWorksOn(cfg, s, actions[0], n, height);
      RunWorksOn(cfg, t, actions[1..], n, height);
    }
  }

  /** Only an executed commit moves the loop. However many blocks a node downloads and
      applies, until it executes one on commit it works on the height it entered, and
      takes in no proposal of any other. */
  lemma DownloadsLeaveLoopBehind(cfg: Config, ledgers: map<Id, Books>, actions: seq<Action>, n: Id)
    requires n in ledgers && ExecutedNothing(Run(cfg, Start(cfg, ledgers), actions), n)
    ensures var s := Run(cfg, Start(cfg, ledgers), actions);
            && n in s.nodes && s.nodes[n].height == Next(ledgers[n])
            && forall r :: r in s.received && r.node == n ==> r.height == Next(ledgers[n])
  {
    hide Run, NewRound;
    RunWorksOn(cfg, Start(cfg, ledgers), actions, n, Next(ledgers[n]));
  }

  // ----------------------------------------------------- a validator on its own

  /** In a set of one honest validator `x`: a precommit that a node counted is its own,
      and sent after it counted the prevote of `x`. */
  ghost predicate LoneRound(own: set<Id>, x: Id, r: Round) {
    forall hash ::
      && Voters(r.precommits, hash) <= own - {x}
      && (Voters(r.precommits, hash) != {} ==> x in Voters(r.prevotes, hash))
  }

  /** The node of `x` counted the prevotes of `x` itself. */
  ghost predicate CountedOwn(votes: set<Vote>, x: Id, r: Round) {
    forall v :: v in votes && v.validatorId == x && v.height == r.height && v.round == r.round ==>
      x in Voters(r.prevotes, v.blockHash)
  }

  ghost predicate LoneTally(cfg: Config, height: nat, votes: set<Vote>, x: Id, n: Id, node: Node) {
    node.height == height ==>
      && node.bft.height == height
      && LoneRound(Own(cfg, n), x, node.bft) && (n == x ==> CountedOwn(votes, x, node.bft))
  }

  ghost predicate LoneInv(cfg: Config, height: nat, s: System, x: Id) {
    && (forall n :: n in s.nodes ==> LoneTally(cfg, height, s.votes, x, n, s.nodes[n]))
    && (forall v :: v in s.votes && v.validatorId == x && v.height == height ==>
          v.voteType == VoteType.Prevote && x in s.nodes && NotAfter(v, s.nodes[x]))
    && (forall c :: c in s.commits ==> c.height != height)
  }

  lemma PrevoteKeepsLone(own: set<Id>, x: Id, r: Round, v: Vote, phase: BftPhase)
    requires LoneRound(own, x, r) && v.voteType == VoteType.Prevote
    ensures LoneRound(own, x, AddVote(r, v).0) && LoneRound(own, x, r.(phase := phase))
  {
    var q := AddVote(r, v).0;
    forall hash
      ensures Voters(q.precommits, hash) == Voters(r.precommits, hash)
      ensures Voters(r.prevotes, hash) <= Voters(q.prevotes, hash)
    {
    }
    assert r.(phase := phase).precommits == r.precommits;
  }

  lemma PrecommitKeepsLone(own: set<Id>, x: Id, r: Round, v: Vote)
    requires LoneRound(own, x, r) && v.voteType == VoteType.Precommit && v.validatorId in own - {x}
    requires x in Voters(r.prevotes, v.blockHash)
    ensures LoneRound(own, x, AddVote(r, v).0)
  {
    var q := AddVote(r, v).0;
    assert q.prevotes == r.prevotes;
    forall hash
      ensures Voters(q.precommits, hash) <= own - {x}
      ensures Voters(q.precommits, hash) != {} ==> x in Voters(q.prevotes, hash)
    {
      assert hash != v.blockHash ==> Voters(q.precommits, hash) == Voters(r.precommits, hash);
    }
  }

  /** A vote of `x` that is new to a node finds no precommit for its block. */
  lemma LoneVote(cfg: Config, height: nat, x: Id, n: Id, node: Node, vote: Vote, now: nat)
    requires cfg.validators(height) == {x} && x in cfg.keyed
    requires LoneRound(Own(cfg, n), x, node.bft)
    requires node.bft.height == node.height && node.bft.round == node.round && node.height == height
    requires node.bft.totalValidators == 1
    requires vote.validatorId == x && vote.height == height ==>
               vote.voteType == VoteType.Prevote
               && (n == x && vote.round == node.round ==> x in Voters(node.bft.prevotes, vote.blockHash))
    ensures var o := OnVote(cfg, n, node, vote, now);
            && LoneRound(Own(cfg, n), x, o.node.bft) && o.committed == None && o.executed == None
            && o.node.height == node.height && o.node.round == node.round
            && (o.sent.Some? ==> o.sent.value.validatorId == n != x)
            && (n == x || !Accepts(cfg, node, vote) ==>
                  o.node == node || (Accepts(cfg, node, vote) && o.node == node.(bft := AddVote(node.bft, vote).0)))
  {
    hide AfterCommit, LoneRound;
    if Accepts(cfg, node, vote) {
      PrevoteKeepsLone(Own(cfg, n), x, node.bft, vote, node.bft.phase);
      var (counted, isNew) := AddVote(node.bft, vote);
      if isNew {
        NoPrecommitYet(Own(cfg, n), x, node.bft, vote.blockHash);
        assert counted.precommits == node.bft.precommits && !IsQuorum({}, 1);
        var bft := TryAdvance(counted, vote.blockHash).0;
        PrevoteKeepsLone(Own(cfg, n), x, counted, vote, bft.phase);
        if n in cfg.keyed {
          PrecommitKeepsLone(Own(cfg, n), x, bft, Vote(height, node.round, vote.blockHash, VoteType.Precommit, n));
        }
      }
    }
  }

  lemma NoPrecommitYet(own: set<Id>, x: Id, r: Round, hash: Hash32)
    requires LoneRound(own, x, r) && x !in Voters(r.prevotes, hash)
    ensures Voters(r.precommits, hash) == {}
  {
  }

  /** When node `n` moves and sends at most one vote, the others keep. */
  lemma FrameLone(cfg: Config, height: nat, s: System, t: System, x: Id, n: Id, sent: Option<Vote>)
    requires LoneInv(cfg, height, s, x)
    requires t.nodes.Keys == s.nodes.Keys && forall m :: m in s.nodes && m != n ==> t.nodes[m] == s.nodes[m]
    requires t.votes == s.votes + Sent(sent) && forall c :: c in t.commits ==> c.height != height
    requires n in s.nodes ==> LoneTally(cfg, height, t.votes, x, n, t.nodes[n])
    requires sent.Some? && sent.value.validatorId == x && sent.value.height == height ==>
               n == x && x in s.nodes && sent.value.voteType == VoteType.Prevote && NotAfter(sent.value, t.nodes[x])
    requires n == x && x in s.nodes ==>
               forall v :: v in s.votes && v.validatorId == x && v.height == height ==> NotAfter(v, t.nodes[x])
    ensures LoneInv(cfg, height, t, x)
  {
    hide LoneRound, NotAfter;
    forall m | m in s.nodes && m != n
      ensures LoneTally(cfg, height, t.votes, x, m, t.nodes[m])
    {
      assert LoneTally(cfg, height, s.votes, x, m, s.nodes[m]);
      if m == x && s.nodes[m].height == height {
        assert CountedOwn(s.votes, x, s.nodes[m].bft);
        assert CountedOwn(t.votes, x, s.nodes[m].bft);
      }
    }
  }

  lemma LoneVoteThere(cfg: Config, height: nat, s: System, x: Id, n: Id, vote: Vote, now: nat)
    requires LoneInv(cfg, height, s, x) && cfg.validators(height) == {x} && x in cfg.keyed
    requires n in s.nodes && NodeInv(cfg, s, n, s.nodes[n]) && vote in s.votes && s.nodes[n].height == height
    ensures var o := OnVote(cfg, n, s.nodes[n], vote, now);
            && LoneTally(cfg, height, s.votes + Sent(o.sent), x, n, o.node)
            && o.committed == None && o.node.height == height && o.node.round == s.nodes[n].round
            && (o.sent.Some? ==> o.sent.value.validatorId == n != x)
  {
    var node := s.nodes[n];
    assert LoneTally(cfg, height, s.votes, x, n, node);
    hide LoneRound, NotAfter, OnVote, AddVote;
    LoneVote(cfg, height, x, n, node, vote, now);
    var o := OnVote(cfg, n, node, vote, now);
    AddVoteKeeps(node.bft, vote);
    if n == x {
      assert s.votes + Sent(o.sent) == s.votes;
      if Accepts(cfg, node, vote) {
        MoreCounted(s.votes, x, node.bft, vote);
      }
    }
    VoteKeepsTally(cfg, s.votes, n, node, vote, now);
  }

  /** A node comes to another height with a fresh vote state, and `x` has not voted there. */
  lemma LoneVoteElsewhere(cfg: Config, height: nat, s: System, x: Id, n: Id, vote: Vote, now: nat)
    requires LoneInv(cfg, height, s, x) && n in s.nodes && NodeInv(cfg, s, n, s.nodes[n]) && s.nodes[n].height != height
    ensures var o := OnVote(cfg, n, s.nodes[n], vote, now);
            LoneTally(cfg, height, s.votes + Sent(o.sent), x, n, o.node)
  {
    var node := s.nodes[n];
    var o := OnVote(cfg, n, node, vote, now);
    HeightNeverFalls(cfg, n, node, vote, now);
    SentIs(cfg, n, node, vote, now);
    if o.node.height == height {
      FreshLone(cfg, n, x, node, vote, now);
      hide OnVote, LoneRound;
      if n == x {
        assert forall v :: v in s.votes && v.validatorId == x ==> v.height != height;
      }
    }
  }

  lemma MoreCounted(votes: set<Vote>, x: Id, r: Round, v: Vote)
    requires CountedOwn(votes, x, r) && v.voteType == VoteType.Prevote
    ensures CountedOwn(votes, x, AddVote(r, v).0)
  {
  }

  lemma FreshLone(cfg: Config, n: Id, x: Id, node: Node, vote: Vote, now: nat)
    requires OnVote(cfg, n, node, vote, now).node.height != node.height
    ensures var after := OnVote(cfg, n, node, vote, now).node;
            LoneRound(Own(cfg, n), x, after.bft) && after.bft.height == after.height
  {
    hide AddVote, TryAdvance, Execution.ExecuteBlock, Ledger.ChainHeight;
  }

  lemma LoneVoteStep(cfg: Config, height: nat, s: System, x: Id, n: Id, vote: Vote, now: nat)
    requires LoneInv(cfg, height, s, x) && cfg.validators(height) == {x} && x in cfg.keyed
    requires n in s.nodes && NodeInv(cfg, s, n, s.nodes[n]) && vote in s.votes
    ensures LoneInv(cfg, height, Step(cfg, s, DeliverVote(n, vote, now)), x)
  {
    hide LoneRound, OnVote, AfterCommit, TallyInv, CountedOwn, Ledger.ChainHeight, AddVote, IsQuorum, LoneTally;
    var node := s.nodes[n];
    VoteOutcomeIff(cfg, n, node, vote, now);
    HeightNeverFalls(cfg, n, node, vote, now);
    SentIs(cfg, n, node, vote, now);
    if node.height == height {
      LoneVoteThere(cfg, height, s, x, n, vote, now);
    } else {
      LoneVoteElsewhere(cfg, height, s, x, n, vote, now);
    }
    FrameLone(cfg, height, s, Step(cfg, s, DeliverVote(n, vote, now)), x, n, OnVote(cfg, n, node, vote, now).sent);
  }

  lemma LoneBlock(cfg: Config, height: nat, s: System, x: Id, n: Id, block: Block)
    requires LoneInv(cfg, height, s, x) && n in s.nodes && NodeInv(cfg, s, n, s.nodes[n])
    requires s.nodes[n].height == height == block.header.height
    ensures var (after, sent) := OnBlock(cfg, n, s.nodes[n], block, false);
            LoneTally(cfg, height, s.votes + Sent(sent), x, n, after)
  {
    hide LoneRound, TallyInv, CountedOwn, AddVote, TryAdvance, Ledger.ChainHeight;
    var node := s.nodes[n];
    assert LoneTally(cfg, height, s.votes, x, n, node);
    var hash := HashOf(cfg, block);
    var bft := TryAdvance(node.bft, hash).0;
    TakesLone(Own(cfg, n), x, node.bft, s.votes, hash);
    var vote := Vote(height, node.round, hash, VoteType.Prevote, n);
    AddVoteKeeps(bft, vote);
    PrevoteKeepsLone(Own(cfg, n), x, bft, vote, bft.phase);
    if n == x {
      CountsOwn(s.votes, x, bft, vote);
    }
    assert s.votes + {} == s.votes;
  }

  lemma LoneBlockStep(cfg: Config, height: nat, s: System, x: Id, n: Id, block: Block, syncing: bool)
    requires LoneInv(cfg, height, s, x) && n in s.nodes && NodeInv(cfg, s, n, s.nodes[n])
    ensures LoneInv(cfg, height, Step(cfg, s, DeliverBlock(n, block, syncing)), x)
  {
    hide LoneRound, TallyInv, CountedOwn, Ledger.ChainHeight, AddVote, TryAdvance, OnVote, OnTimeout, OnDownload;
    var node := s.nodes[n];
    var sent := OnBlock(cfg, n, node, block, syncing).1;
    assert LoneTally(cfg, height, s.votes, x, n, node);
    if node.height == height && block.header.height == height && !syncing {
      LoneBlock(cfg, height, s, x, n, block);
    }
    assert s.votes + {} == s.votes;
    FrameLone(cfg, height, s, Step(cfg, s, DeliverBlock(n, block, syncing)), x, n, sent);
  }

  lemma TakesLone(own: set<Id>, x: Id, r: Round, votes: set<Vote>, hash: Hash32)
    requires LoneRound(own, x, r)
    ensures var q := TryAdvance(r, hash).0;
            && q.height == r.height && q.round == r.round && LoneRound(own, x, q)
            && (CountedOwn(votes, x, r) ==> CountedOwn(votes, x, q))
  {
    PrevoteKeepsLone(own, x, r, Vote(0, 0, hash, VoteType.Prevote, x), TryAdvance(r, hash).0.phase);
  }

  lemma CountsOwn(votes: set<Vote>, x: Id, r: Round, v: Vote)
    requires CountedOwn(votes, x, r) && v.voteType == VoteType.Prevote && v.validatorId == x
    requires v.height == r.height && v.round == r.round
    ensures CountedOwn(votes + {v}, x, AddVote(r, v).0)
  {
  }

  lemma LoneTimeoutStep(cfg: Config, height: nat, s: System, x: Id, n: Id)
    requires LoneInv(cfg, height, s, x) && n in s.nodes
    ensures LoneInv(cfg, height, Step(cfg, s, Timeout(n)), x)
  {
    hide OnVote, OnBlock, OnDownload;
    FrameLone(cfg, height, s, Step(cfg, s, Timeout(n)), x, n, None);
  }

  lemma LoneLedgerStep(cfg: Config, height: nat, s: System, x: Id, n: Id, store: Ledger.Store, pool: Mempool.Pool)
    requires LoneInv(cfg, height, s, x) && n in s.nodes
    ensures LoneInv(cfg, height, Update(s, n, s.nodes[n].(store := store, pool := pool)), x)
  {
    hide LoneRound;
    assert s.votes + {} == s.votes;
    FrameLone(cfg, height, s, Update(s, n, s.nodes[n].(store := store, pool := pool)), x, n, None);
  }

  lemma StrayKeepsLone(cfg: Config, height: nat, s: System, x: Id, vote: Vote)
    requires LoneInv(cfg, height, s, x) && (vote.validatorId == x ==> vote.height != height)
    ensures LoneInv(cfg, height, s.(votes := s.votes + {vote}), x)
  {
    hide LoneRound;
    var t := s.(votes := s.votes + {vote});
    forall n | n in s.nodes
      ensures LoneTally(cfg, height, t.votes, x, n, t.nodes[n])
    {
      assert LoneTally(cfg, height, s.votes, x, n, s.nodes[n]);
    }
  }

  lemma StepKeepsLone(cfg: Config, height: nat, s: System, x: Id, a: Action)
    requires LoneInv(cfg, height, s, x) && cfg.validators(height) == {x} && x in cfg.keyed
    requires Inv(cfg, height, s) && Genuine(cfg, height, a)
    ensures LoneInv(cfg, height, Step(cfg, s, a), x)
  {
    assert forall n :: n in s.nodes ==> NodeInv(cfg, s, n, s.nodes[n]);
    hide Inv, LoneInv, NodeInv, OnVote, OnBlock, OnTimeout, Ledger.PruneHistory, Mempool.Insert, Execution.ExecuteBlock;
    match a
    case Forge(vote) => if vote.validatorId !in cfg.keyed { StrayKeepsLone(cfg, height, s, x, vote); }
    case Replay(vote, h, round, t) =>
      if vote in s.votes {
        StrayKeepsLone(cfg, height, s, x, Vote(h, round, vote.blockHash, t, vote.validatorId));
      }
    case DeliverBlock(n, block, syncing) => if n in s.nodes { LoneBlockStep(cfg, height, s, x, n, block, syncing); }
    case DeliverVote(n, vote, now) =>
      if n in s.nodes && vote in s.votes { LoneVoteStep(cfg, height, s, x, n, vote, now); }
    case Timeout(n) => if n in s.nodes { LoneTimeoutStep(cfg, height, s, x, n); }
    case Download(n, block, now) =>
      if n in s.nodes {
        var after := OnDownload(cfg, n, s.nodes[n], block, now);
        LoneLedgerStep(cfg, height, s, x, n, after.store, after.pool);
      }
    case Submit(n, tx) =>
      if n in s.nodes {
        var node := s.nodes[n];
        LoneLedgerStep(cfg, height, s, x, n, node.store,
                       Mempool.Insert(cfg.env, node.store.nullifiers, node.pool, tx).0);
      }
    case Prune(n, keepLast) =>
      if n in s.nodes {
        var node := s.nodes[n];
        LoneLedgerStep(cfg, height, s, x, n, Ledger.PruneHistory(cfg.env, node.store, keepLast).0, node.pool);
      }
  }

  lemma {:induction false} RunKeepsLone(cfg: Config, height: nat, s: System, x: Id, actions: seq<Action>)
    requires LoneInv(cfg, height, s, x) && cfg.validators(height) == {x} && x in cfg.keyed
    requires Inv(cfg, height, s) && Authentic(cfg, height, actions)
    ensures LoneInv(cfg, height, Run(cfg, s, actions), x)
    decreases |actions|
  {
    hide Inv, LoneInv, Step, Genuine;
    if actions != [] {
      StepKeepsInv(cfg, height, s, actions[0]);
      StepKeepsLone(cfg, height, s, x, actions[0]);
      RunKeepsLone(cfg, height, Step(cfg, s, actions[0]), x, actions[1..]);
    }
  }

  /** One's own vote is counted but sets off no phase, so that where a single honest
      validator makes up the set, no node commits in any run without replays into the
      height. */
  lemma LoneValidatorNeverCommits(cfg: Config, ledgers: map<Id, Books>, actions: seq<Action>, x: Id, c: CommitRecord)
    requires cfg.validators(c.height) == {x} && x in cfg.keyed && Authentic(cfg, c.height, actions)
    ensures c !in Run(cfg, Start(cfg, ledgers), actions).commits
  {
    hide Run;
    var start := Start(cfg, ledgers);
    StartInv(cfg, c.height, ledgers);
    forall n | n in start.nodes
      ensures LoneTally(cfg, c.height, start.votes, x, n, start.nodes[n])
    {
      assert LoneRound(Own(cfg, n), x, start.nodes[n].bft);
    }
    RunKeepsLone(cfg, c.height, start, x, actions);
  }
}
