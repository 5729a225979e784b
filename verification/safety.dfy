/** Agreement and validity of the vote protocol, height by height: what every step
    keeps, and what follows for all commits of a run. */
module Safety {
  import opened Types
  import opened Bft
  import opened Consensus
  import Execution
  import Ledger
  import Mempool

  // -------------------------------------------------------- tallies and quorums

  /** A node counts its own vote without asking whether it is a validator. */
  function Own(cfg: Config, n: Id): set<Id> {
    if n in cfg.keyed then {n} else {}
  }

  /** The ids `voters`, as counted at node `n`, all sent this vote. */
  predicate Counted(cfg: Config, votes: set<Vote>, n: Id, height: nat, round: nat, hash: Hash32, t: VoteType,
          voters: set<Id>)
  {
    && (cfg.validators(height) != {} ==> voters <= cfg.validators(height) + Own(cfg, n))
    && forall id :: id in voters ==> Vote(height, round, hash, t, id) in votes
  }

  predicate QuorumOf(cfg: Config, votes: set<Vote>, n: Id, height: nat, round: nat, hash: Hash32, t: VoteType,
          voters: set<Id>)
  {
    IsQuorum(voters, TotalValidators(cfg, height)) && Counted(cfg, votes, n, height, round, hash, t, voters)
  }

  ghost predicate HasQuorum(cfg: Config, votes: set<Vote>, n: Id, height: nat, round: nat, hash: Hash32, t: VoteType) {
    exists voters :: QuorumOf(cfg, votes, n, height, round, hash, t, voters)
  }

  predicate TallyInv(cfg: Config, votes: set<Vote>, n: Id, r: Round) {
    && r.totalValidators == TotalValidators(cfg, r.height)
    && (forall hash :: hash in r.prevotes ==>
          Counted(cfg, votes, n, r.height, r.round, hash, VoteType.Prevote, r.prevotes[hash]))
    && (forall hash :: hash in r.precommits ==>
          Counted(cfg, votes, n, r.height, r.round, hash, VoteType.Precommit, r.precommits[hash]))
  }

  lemma QuorumGrows(cfg: Config, votes: set<Vote>, more: set<Vote>, n: Id, height: nat, round: nat, hash: Hash32,
          t: VoteType)
    requires votes <= more && HasQuorum(cfg, votes, n, height, round, hash, t)
    ensures HasQuorum(cfg, more, n, height, round, hash, t)
  {
    var voters :| QuorumOf(cfg, votes, n, height, round, hash, t, voters);
    assert QuorumOf(cfg, more, n, height, round, hash, t, voters);
  }

  /** The tallies stay honest when more votes are sent and the phase moves. */
  lemma TallyGrows(cfg: Config, votes: set<Vote>, more: set<Vote>, n: Id, r: Round, phase: BftPhase)
    requires TallyInv(cfg, votes, n, r) && votes <= more
    ensures TallyInv(cfg, more, n, r.(phase := phase))
  {
    forall hash | hash in r.prevotes
      ensures Counted(cfg, more, n, r.height, r.round, hash, VoteType.Prevote, r.prevotes[hash])
    {
      assert Counted(cfg, votes, n, r.height, r.round, hash, VoteType.Prevote, r.prevotes[hash]);
    }
    forall hash | hash in r.precommits
      ensures Counted(cfg, more, n, r.height, r.round, hash, VoteType.Precommit, r.precommits[hash])
    {
      assert Counted(cfg, votes, n, r.height, r.round, hash, VoteType.Precommit, r.precommits[hash]);
    }
  }

  /** The node counts votes of validators, and its own. */
  predicate MayCount(cfg: Config, n: Id, r: Round, v: Vote) {
    cfg.validators(r.height) != {} ==> v.validatorId in cfg.validators(r.height) + Own(cfg, n)
  }

  /** Counting a vote that was sent keeps the tallies honest. */
  lemma TallyCounts(cfg: Config, votes: set<Vote>, n: Id, r: Round, v: Vote)
    requires TallyInv(cfg, votes, n, r) && v in votes && MayCount(cfg, n, r, v)
    ensures TallyInv(cfg, votes, n, AddVote(r, v).0)
  {
    match v.voteType
    case Prevote => PrevoteCounts(cfg, votes, n, r, v);
    case Precommit => PrecommitCounts(cfg, votes, n, r, v);
  }

  lemma PrevoteCounts(cfg: Config, votes: set<Vote>, n: Id, r: Round, v: Vote)
    requires TallyInv(cfg, votes, n, r) && v in votes && MayCount(cfg, n, r, v) && v.voteType == VoteType.Prevote
    ensures TallyInv(cfg, votes, n, AddVote(r, v).0)
  {
    var q := AddVote(r, v).0;
    forall hash | hash in q.prevotes
      ensures Counted(cfg, votes, n, r.height, r.round, hash, VoteType.Prevote, q.prevotes[hash])
    {
      if hash in r.prevotes {
        assert Counted(cfg, votes, n, r.height, r.round, hash, VoteType.Prevote, r.prevotes[hash]);
      }
    }
    assert q.precommits == r.precommits;
  }

  lemma PrecommitCounts(cfg: Config, votes: set<Vote>, n: Id, r: Round, v: Vote)
    requires TallyInv(cfg, votes, n, r) && v in votes && MayCount(cfg, n, r, v) && v.voteType == VoteType.Precommit
    ensures TallyInv(cfg, votes, n, AddVote(r, v).0)
  {
    var q := AddVote(r, v).0;
    forall hash | hash in q.precommits
      ensures Counted(cfg, votes, n, r.height, r.round, hash, VoteType.Precommit, q.precommits[hash])
    {
      if hash in r.precommits {
        assert Counted(cfg, votes, n, r.height, r.round, hash, VoteType.Precommit, r.precommits[hash]);
      }
    }
    assert q.prevotes == r.prevotes;
  }

  // ------------------------------- what every run keeps, refused commits included

  predicate NodeInv(cfg: Config, s: System, n: Id, node: Node) {
    && node.bft.height == node.height && node.bft.round == node.round
    && node.height <= Ledger.ChainHeight(node.store) + 1
    && TallyInv(cfg, s.votes, n, node.bft)
    && (node.current.Some? ==>
          && node.current.value.header.height == node.height
          && Receipt(n, node.height, HashOf(cfg, node.current.value)) in s.received)
  }

  /** What a vote of an honest key at this height stands for. */
  ghost predicate VoteInv(cfg: Config, height: nat, s: System, v: Vote) {
    v.validatorId in cfg.keyed && v.height == height ==>
      match v.voteType
      case Prevote => Receipt(v.validatorId, v.height, v.blockHash) in s.received
      case Precommit => HasQuorum(cfg, s.votes, v.validatorId, v.height, v.round, v.blockHash, VoteType.Prevote)
  }

  ghost predicate Inv(cfg: Config, height: nat, s: System) {
    && (forall n :: n in s.nodes ==> NodeInv(cfg, s, n, s.nodes[n]))
    && (forall v :: v in s.votes ==> VoteInv(cfg, height, s, v))
    && (forall c :: c in s.commits ==>
          c.node in s.nodes && HasQuorum(cfg, s.votes, c.node, c.height, c.round, c.hash, VoteType.Precommit))
    && (forall e :: e in s.executions ==>
          && e.commit in s.commits
          && Receipt(e.commit.node, e.commit.height, HashOf(cfg, e.block)) in s.received)
  }

  /** The facts about other nodes and older votes survive when node `n` moves, at most
      one vote is sent, and the records grow. */
  lemma Frame(cfg: Config, height: nat, s: System, t: System, n: Id, sent: Option<Vote>)
    requires Inv(cfg, height, s)
    requires t.votes == s.votes + Sent(sent) && s.received <= t.received
    requires t.nodes.Keys == s.nodes.Keys && forall m :: m in s.nodes && m != n ==> t.nodes[m] == s.nodes[m]
    requires n in s.nodes ==> NodeInv(cfg, t, n, t.nodes[n])
    requires sent.Some? ==> VoteInv(cfg, height, t, sent.value)
    requires forall c :: c in t.commits && c !in s.commits ==>
               c.node in s.nodes && HasQuorum(cfg, t.votes, c.node, c.height, c.round, c.hash, VoteType.Precommit)
    requires s.commits <= t.commits
    requires forall e :: e in t.executions && e !in s.executions ==>
               && e.commit in t.commits
               && Receipt(e.commit.node, e.commit.height, HashOf(cfg, e.block)) in t.received
    ensures Inv(cfg, height, t)
  {
    hide HasQuorum, NodeInv;
    forall c | c in s.commits
      ensures HasQuorum(cfg, t.votes, c.node, c.height, c.round, c.hash, VoteType.Precommit)
    {
      QuorumGrows(cfg, s.votes, t.votes, c.node, c.height, c.round, c.hash, VoteType.Precommit);
    }
    forall v | v in s.votes
      ensures VoteInv(cfg, height, t, v)
    {
      assert VoteInv(cfg, height, s, v);
      if v.validatorId in cfg.keyed && v.height == height && v.voteType == VoteType.Precommit {
        QuorumGrows(cfg, s.votes, t.votes, v.validatorId, v.height, v.round, v.blockHash, VoteType.Prevote);
      }
    }
    forall m | m in s.nodes && m != n
      ensures NodeInv(cfg, t, m, t.nodes[m])
    {
      OtherNode(cfg, s, t, m);
    }
  }

  lemma OtherNode(cfg: Config, s: System, t: System, m: Id)
    requires m in s.nodes && NodeInv(cfg, s, m, s.nodes[m])
    requires s.votes <= t.votes && s.received <= t.received
    ensures NodeInv(cfg, t, m, s.nodes[m])
  {
    hide TallyInv;
    TallyGrows(cfg, s.votes, t.votes, m, s.nodes[m].bft, s.nodes[m].bft.phase);
  }

  /** A vote out of nowhere: forged, or replayed as one of another height. */
  lemma StrayKeepsInv(cfg: Config, height: nat, s: System, vote: Vote)
    requires Inv(cfg, height, s) && (vote.validatorId in cfg.keyed ==> vote.height != height)
    ensures Inv(cfg, height, s.(votes := s.votes + {vote}))
  {
    hide NodeInv;
    var t := s.(votes := s.votes + {vote});
    var n := vote.validatorId;
    if n in s.nodes {
      OtherNode(cfg, s, t, n);
    }
    Frame(cfg, height, s, t, n, Some(vote));
  }

  lemma TimeoutKeepsInv(cfg: Config, height: nat, s: System, n: Id)
    requires Inv(cfg, height, s) && n in s.nodes
    ensures Inv(cfg, height, Step(cfg, s, Timeout(n)))
  {
    hide OnVote, OnBlock, OnDownload, Ledger.ChainHeight;
    var t := Step(cfg, s, Timeout(n));
    assert NodeInv(cfg, s, n, s.nodes[n]);
    Frame(cfg, height, s, t, n, None);
  }

  lemma BlockKeepsNodeInv(cfg: Config, s: System, n: Id, block: Block, syncing: bool)
    requires n in s.nodes && NodeInv(cfg, s, n, s.nodes[n])
    ensures var t := Step(cfg, s, DeliverBlock(n, block, syncing)); NodeInv(cfg, t, n, t.nodes[n])
  {
    hide TallyInv, AddVote, IsQuorum, Voters, OnVote, OnTimeout, OnDownload, Ledger.ChainHeight;
    var node := s.nodes[n];
    var t := Step(cfg, s, DeliverBlock(n, block, syncing));
    TallyGrows(cfg, s.votes, t.votes, n, node.bft, node.bft.phase);
    if block.header.height == node.height && !syncing {
      var hash := HashOf(cfg, block);
      var bft := TryAdvance(node.bft, hash).0;
      TallyGrows(cfg, s.votes, t.votes, n, node.bft, bft.phase);
      assert node.bft.(phase := bft.phase) == bft;
      if n in cfg.keyed {
        var vote := Vote(node.height, node.round, hash, VoteType.Prevote, n);
        TallyCounts(cfg, t.votes, n, bft, vote);
        AddVoteKeeps(bft, vote);
      }
    }
  }

  lemma AddVoteKeeps(r: Round, v: Vote)
    ensures var q := AddVote(r, v).0; q.height == r.height && q.round == r.round && q.phase == r.phase
  {
  }

  lemma BlockKeepsInv(cfg: Config, height: nat, s: System, n: Id, block: Block, syncing: bool)
    requires Inv(cfg, height, s) && n in s.nodes
    ensures Inv(cfg, height, Step(cfg, s, DeliverBlock(n, block, syncing)))
  {
    hide NodeInv, TryAdvance, AddVote;
    BlockKeepsNodeInv(cfg, s, n, block, syncing);
    var t := Step(cfg, s, DeliverBlock(n, block, syncing));
    Frame(cfg, height, s, t, n, OnBlock(cfg, n, s.nodes[n], block, syncing).1);
  }

  lemma VoteKeepsTally(cfg: Config, votes: set<Vote>, n: Id, node: Node, vote: Vote, now: nat)
    requires TallyInv(cfg, votes, n, node.bft) && vote in votes
    requires node.bft.height == node.height && node.bft.round == node.round
    ensures var o := OnVote(cfg, n, node, vote, now);
            && TallyInv(cfg, votes + Sent(o.sent), n, o.node.bft)
            && o.node.bft.height == o.node.height && o.node.bft.round == o.node.round
            && (o.node.current.Some? ==> o.node.current == node.current && o.node.height == node.height)
  {
    hide TallyInv, AddVote, AfterCommit;
    var o := OnVote(cfg, n, node, vote, now);
    var after := votes + Sent(o.sent);
    TallyGrows(cfg, votes, after, n, node.bft, node.bft.phase);
    if Accepts(cfg, node, vote) {
      var counted := AddVote(node.bft, vote).0;
      AddVoteKeeps(node.bft, vote);
      TallyCounts(cfg, votes, n, node.bft, vote);
      TallyGrows(cfg, votes, after, n, counted, counted.phase);
      if node.current.Some? {
        AfterCommitTally(cfg, after, n, node, node.current.value, now);
      }
      if AddVote(node.bft, vote).1 {
        var (bft, phase) := TryAdvance(counted, vote.blockHash);
        TallyGrows(cfg, votes, after, n, counted, bft.phase);
        assert counted.(phase := bft.phase) == bft;
        if phase == Some(BftPhase.Precommit) && n in cfg.keyed {
          var own := Vote(node.height, node.round, vote.blockHash, VoteType.Precommit, n);
          TallyCounts(cfg, after, n, bft, own);
          AddVoteKeeps(bft, own);
        }
      }
    }
  }

  lemma EnterTally(cfg: Config, votes: set<Vote>, n: Id, store: Ledger.Store, pool: Mempool.Pool)
    ensures var node := Enter(cfg, store, pool);
            && TallyInv(cfg, votes, n, node.bft) && node.current == None
            && node.bft.height == node.height && node.bft.round == node.round
  {
  }

  lemma AfterCommitTally(cfg: Config, votes: set<Vote>, n: Id, node: Node, block: Block, now: nat)
    ensures var next := AfterCommit(cfg, n, node, block, now);
            && TallyInv(cfg, votes, n, next.bft) && next.current == None
            && next.bft.height == next.height && next.bft.round == next.round
  {
    hide Execution.ExecuteBlock, TallyInv, Enter;
    var (store, pool) := Execution.ExecuteBlock(cfg.env, LocalOf(cfg, n, now), node.store, node.pool, block);
    EnterTally(cfg, votes, n, store, pool);
  }

  /** A node does not go back to a lower height. */
  lemma HeightNeverFalls(cfg: Config, n: Id, node: Node, vote: Vote, now: nat)
    requires node.height <= Ledger.ChainHeight(node.store) + 1
    ensures var o := OnVote(cfg, n, node, vote, now);
            o.node.height >= node.height && o.node.height <= Ledger.ChainHeight(o.node.store) + 1
  {
    hide Execution.ExecuteBlock, Ledger.ChainHeight, TryAdvance, AddVote, NewRound;
    if node.current.Some? {
      ChainNeverShrinks(cfg.env, LocalOf(cfg, n, now), node.store, node.pool, node.current.value);
    }
  }

  lemma VoteKeepsNodeInv(cfg: Config, s: System, n: Id, vote: Vote, now: nat)
    requires n in s.nodes && NodeInv(cfg, s, n, s.nodes[n]) && vote in s.votes
    ensures var t := Step(cfg, s, DeliverVote(n, vote, now)); NodeInv(cfg, t, n, t.nodes[n])
  {
    hide TallyInv, OnVote, Ledger.ChainHeight;
    VoteKeepsTally(cfg, s.votes, n, s.nodes[n], vote, now);
    HeightNeverFalls(cfg, n, s.nodes[n], vote, now);
  }

  /** A phase change on a vote means a quorum was counted for its block. */
  lemma AdvanceMeansQuorum(cfg: Config, votes: set<Vote>, n: Id, r: Round, hash: Hash32)
    requires TallyInv(cfg, votes, n, r)
    ensures TryAdvance(r, hash).1 == Some(BftPhase.Precommit) ==>
              HasQuorum(cfg, votes, n, r.height, r.round, hash, VoteType.Prevote)
    ensures TryAdvance(r, hash).1 == Some(BftPhase.Commit) ==>
              HasQuorum(cfg, votes, n, r.height, r.round, hash, VoteType.Precommit)
  {
    if TryAdvance(r, hash).1 == Some(BftPhase.Precommit) {
      assert QuorumOf(cfg, votes, n, r.height, r.round, hash, VoteType.Prevote, Voters(r.prevotes, hash));
    } else if TryAdvance(r, hash).1 == Some(BftPhase.Commit) {
      assert QuorumOf(cfg, votes, n, r.height, r.round, hash, VoteType.Precommit, Voters(r.precommits, hash));
    }
  }

  lemma VoteKeepsInv(cfg: Config, height: nat, s: System, n: Id, vote: Vote, now: nat)
    requires Inv(cfg, height, s) && n in s.nodes && vote in s.votes
    ensures Inv(cfg, height, Step(cfg, s, DeliverVote(n, vote, now)))
  {
    hide TallyInv, AddVote, HasQuorum, TryAdvance, AfterCommit, Ledger.ChainHeight;
    var node := s.nodes[n];
    var t := Step(cfg, s, DeliverVote(n, vote, now));
    assert NodeInv(cfg, s, n, node);
    VoteKeepsNodeInv(cfg, s, n, vote, now);
    if Accepts(cfg, node, vote) {
      var counted := AddVote(node.bft, vote).0;
      AddVoteKeeps(node.bft, vote);
      TallyCounts(cfg, s.votes, n, node.bft, vote);
      TallyGrows(cfg, s.votes, t.votes, n, counted, counted.phase);
      AdvanceMeansQuorum(cfg, t.votes, n, counted, vote.blockHash);
    }
    Frame(cfg, height, s, t, n, OnVote(cfg, n, node, vote, now).sent);
  }

  /** The protocol looks at stores and pools only for the height of the chain. */
  lemma LedgerKeepsInv(cfg: Config, height: nat, s: System, n: Id, store: Ledger.Store, pool: Mempool.Pool)
    requires Inv(cfg, height, s) && n in s.nodes
    requires Ledger.ChainHeight(store) >= Ledger.ChainHeight(s.nodes[n].store)
    ensures Inv(cfg, height, Update(s, n, s.nodes[n].(store := store, pool := pool)))
  {
    hide TallyInv, Ledger.ChainHeight;
    var t := Update(s, n, s.nodes[n].(store := store, pool := pool));
    assert NodeInv(cfg, s, n, s.nodes[n]);
    assert s.votes + {} == s.votes;
    Frame(cfg, height, s, t, n, None);
  }

  lemma {:induction false} PruningKeepsHeight(env: Env, s: Ledger.Store, h: nat, end: nat)
    requires h <= end
    ensures Ledger.PruneRange(env, s, h, end).0.chainHeight == s.chainHeight
    decreases end - h
  {
    if h < end {
      var t := if h in s.heightHash
        then Ledger.DeleteBlock(env, s.(heightHash := s.heightHash - {h}), s.heightHash[h]) else s;
      PruningKeepsHeight(env, t, h + 1, end);
    }
  }

  lemma PruneKeepsInv(cfg: Config, height: nat, s: System, n: Id, keepLast: nat)
    requires Inv(cfg, height, s) && n in s.nodes
    ensures Inv(cfg, height, Step(cfg, s, Prune(n, keepLast)))
  {
    hide Inv, Ledger.PruneRange;
    var node := s.nodes[n];
    var end := Ledger.ChainHeight(node.store) - keepLast;
    if end > 0 {
      PruningKeepsHeight(cfg.env, node.store, 0, end);
    }
    LedgerKeepsInv(cfg, height, s, n, Ledger.PruneHistory(cfg.env, node.store, keepLast).0, node.pool);
  }

  lemma DownloadKeepsInv(cfg: Config, height: nat, s: System, n: Id, block: Block, now: nat)
    requires Inv(cfg, height, s) && n in s.nodes
    ensures Inv(cfg, height, Step(cfg, s, Download(n, block, now)))
  {
    hide Inv, Execution.ExecuteBlock, Ledger.ChainHeight;
    var node := s.nodes[n];
    ChainNeverShrinks(cfg.env, LocalOf(cfg, n, now), node.store, node.pool, block);
    var after := OnDownload(cfg, n, node, block, now);
    LedgerKeepsInv(cfg, height, s, n, after.store, after.pool);
  }

  /** Every step keeps the invariant, but for a replay into the height. */
  lemma StepKeepsInv(cfg: Config, height: nat, s: System, a: Action)
    requires Inv(cfg, height, s) && Genuine(cfg, height, a)
    ensures Inv(cfg, height, Step(cfg, s, a))
  {
    hide Inv, OnVote, OnBlock, OnTimeout, OnDownload, Ledger.PruneHistory, Mempool.Insert, Ledger.ChainHeight;
    match a
    case Forge(vote) => if vote.validatorId !in cfg.keyed { StrayKeepsInv(cfg, height, s, vote); }
    case Replay(vote, h, round, t) =>
      if vote in s.votes { StrayKeepsInv(cfg, height, s, Vote(h, round, vote.blockHash, t, vote.validatorId)); }
    case DeliverBlock(n, block, syncing) => if n in s.nodes { BlockKeepsInv(cfg, height, s, n, block, syncing); }
    case DeliverVote(n, vote, now) =>
      if n in s.nodes && vote in s.votes { VoteKeepsInv(cfg, height, s, n, vote, now); }
    case Timeout(n) => if n in s.nodes { TimeoutKeepsInv(cfg, height, s, n); }
    case Download(n, block, now) => if n in s.nodes { DownloadKeepsInv(cfg, height, s, n, block, now); }
    case Submit(n, tx) =>
      if n in s.nodes {
        var node := s.nodes[n];
        LedgerKeepsInv(cfg, height, s, n, node.store,
                       Mempool.Insert(cfg.env, node.store.nullifiers, node.pool, tx).0);
      }
    case Prune(n, keepLast) => if n in s.nodes { PruneKeepsInv(cfg, height, s, n, keepLast); }
  }

  lemma {:induction false} RunKeepsInv(cfg: Config, height: nat, s: System, actions: seq<Action>)
    requires Inv(cfg, height, s) && Authentic(cfg, height, actions)
    ensures Inv(cfg, height, Run(cfg, s, actions))
    decreases |actions|
  {
    hide Inv, Step, Genuine;
    if actions != [] {
      StepKeepsInv(cfg, height, s, actions[0]);
      RunKeepsInv(cfg, height, Step(cfg, s, actions[0]), actions[1..]);
    }
  }

  lemma StartInv(cfg: Config, height: nat, ledgers: map<Id, Books>)
    ensures Inv(cfg, height, Start(cfg, ledgers))
  {
    hide TallyInv;
    var s := Start(cfg, ledgers);
    forall n | n in s.nodes
      ensures NodeInv(cfg, s, n, s.nodes[n])
    {
      EnterTally(cfg, s.votes, n, ledgers[n].0, ledgers[n].1);
    }
  }

  // ------------------------- what runs keep in which commits at the height move on

  /** At this height, an honest key has not voted beyond its node's round, and has not
      precommitted in that round before the node reached that phase. */
  predicate OwnVotes(height: nat, votes: set<Vote>, n: Id, node: Node) {
    && (forall v :: v in votes && v.validatorId == n && v.height == height ==> NotAfter(v, node))
    && (node.height == height && Rank(node.bft.phase) < 2 ==>
          forall v :: v in votes && v.validatorId == n && v.height == height && v.voteType == VoteType.Precommit ==>
            v.round != node.round)
  }

  predicate NotAfter(v: Vote, node: Node) {
    v.height < node.height || (v.height == node.height && v.round <= node.round)
  }

  /** The node is past the rounds of this height in which it committed, or done with
      the phases of the last one. */
  predicate OwnCommits(height: nat, commits: set<CommitRecord>, n: Id, node: Node) {
    forall c :: c in commits && c.node == n && c.height == height ==>
      || height < node.height
      || (height == node.height
          && (c.round < node.round || (c.round == node.round && node.bft.phase == BftPhase.Commit)))
  }

  /** An honest key precommits at most one block in each round of the height. */
  ghost predicate OnePrecommit(cfg: Config, height: nat, votes: set<Vote>) {
    forall v, w :: v in votes && w in votes && v.validatorId == w.validatorId && v.validatorId in cfg.keyed
      && v.voteType == w.voteType == VoteType.Precommit && v.height == w.height == height && v.round == w.round
      ==> v.blockHash == w.blockHash
  }

  /** And its node commits at most one. */
  ghost predicate OneCommit(cfg: Config, height: nat, commits: set<CommitRecord>) {
    forall c, d :: c in commits && d in commits && c.node == d.node && c.node in cfg.keyed
      && c.height == d.height == height && c.round == d.round
      ==> c.hash == d.hash
  }

  ghost predicate OnceInv(cfg: Config, height: nat, s: System) {
    && (forall n :: n in s.nodes && n in cfg.keyed ==>
          OwnVotes(height, s.votes, n, s.nodes[n]) && OwnCommits(height, s.commits, n, s.nodes[n]))
    && OnePrecommit(cfg, height, s.votes) && OneCommit(cfg, height, s.commits)
  }

  /** A key precommits on leaving the prevote phase and commits on leaving the next one,
      and enters neither again as long as executed commits move it on. */
  lemma VoteKeepsOwn(cfg: Config, height: nat, votes: set<Vote>, commits: set<CommitRecord>, n: Id, node: Node,
          vote: Vote, now: nat)
    requires OwnVotes(height, votes, n, node) && OwnCommits(height, commits, n, node)
    requires node.bft.height == node.height && node.bft.round == node.round
    requires var o := OnVote(cfg, n, node, vote, now);
             o.executed.Some? ==> o.node.height >= node.height && (node.height == height ==> o.node.height > height)
    ensures var o := OnVote(cfg, n, node, vote, now);
            var c := CommitRecord(n, vote.height, vote.round, vote.blockHash);
            && OwnVotes(height, votes + Sent(o.sent), n, o.node)
            && OwnCommits(height, commits + (if o.committed.Some? then {c} else {}), n, o.node)
            && (o.sent.Some? ==> Rank(node.bft.phase) < 2)
            && (o.committed.Some? ==> vote.height == node.height && vote.round == node.round
                                      && node.bft.phase == BftPhase.Precommit)
  {
    hide AddVote, IsQuorum, Voters, TotalValidators, AfterCommit;
    AddVoteKeeps(node.bft, vote);
    var (bft, phase) := TryAdvance(AddVote(node.bft, vote).0, vote.blockHash);
    AddVoteKeeps(bft, Vote(node.height, node.round, vote.blockHash, VoteType.Precommit, n));
  }

  lemma MovesOnMeans(cfg: Config, height: nat, s: System, n: Id, vote: Vote, now: nat)
    requires n in s.nodes && NodeInv(cfg, s, n, s.nodes[n]) && vote in s.votes && n in cfg.keyed
    requires MovesOn(cfg, height, s, DeliverVote(n, vote, now))
    ensures var o := OnVote(cfg, n, s.nodes[n], vote, now);
            o.executed.Some? && s.nodes[n].height == height ==> o.node.height > height
  {
    hide Moves, TallyInv, Ledger.ChainHeight;
    var node := s.nodes[n];
    VoteOutcomeIff(cfg, n, node, vote, now);
    hide OnVote, AfterCommit;
    if node.current.Some? {
      MovesIff(cfg, n, node, node.current.value, now);
    }
  }

  /** When node `n` moves and sends at most one vote and one commit, the others keep. */
  lemma FrameOnce(cfg: Config, height: nat, s: System, t: System, n: Id, sent: Option<Vote>, c: Option<CommitRecord>)
    requires OnceInv(cfg, height, s)
    requires t.nodes.Keys == s.nodes.Keys && forall m :: m in s.nodes && m != n ==> t.nodes[m] == s.nodes[m]
    requires t.votes == s.votes + Sent(sent) && t.commits == s.commits + (if c.Some? then {c.value} else {})
    requires sent.Some? && sent.value.validatorId in cfg.keyed && sent.value.height == height ==>
               && sent.value.validatorId == n
               && (sent.value.voteType == VoteType.Precommit ==>
                     forall v :: v in s.votes && v.validatorId == n && v.height == height ==>
                       v.voteType == VoteType.Precommit ==> v.round != sent.value.round)
    requires c.Some? ==> c.value.node == n
    requires c.Some? && n in cfg.keyed && c.value.height == height ==>
               forall d :: d in s.commits && d.node == n && d.height == height ==> d.round != c.value.round
    requires n in s.nodes && n in cfg.keyed ==>
               OwnVotes(height, t.votes, n, t.nodes[n]) && OwnCommits(height, t.commits, n, t.nodes[n])
    ensures OnceInv(cfg, height, t)
  {
    assert OnePrecommit(cfg, height, t.votes);
    assert OneCommit(cfg, height, t.commits);
  }

  lemma StrayKeepsOnce(cfg: Config, height: nat, s: System, vote: Vote)
    requires OnceInv(cfg, height, s) && (vote.validatorId in cfg.keyed ==> vote.height != height)
    ensures OnceInv(cfg, height, s.(votes := s.votes + {vote}))
  {
    FrameOnce(cfg, height, s, s.(votes := s.votes + {vote}), vote.validatorId, Some(vote), None);
  }

  lemma BlockKeepsOnce(cfg: Config, height: nat, s: System, n: Id, block: Block, syncing: bool)
    requires OnceInv(cfg, height, s) && n in s.nodes && NodeInv(cfg, s, n, s.nodes[n])
    ensures OnceInv(cfg, height, Step(cfg, s, DeliverBlock(n, block, syncing)))
  {
    hide TallyInv, AddVote, IsQuorum, Voters, OnVote, OnTimeout, OnDownload, Ledger.ChainHeight, OnePrecommit,
         OneCommit;
    var node := s.nodes[n];
    var hash := HashOf(cfg, block);
    AddVoteKeeps(TryAdvance(node.bft, hash).0, Vote(node.height, node.round, hash, VoteType.Prevote, n));
    var t := Step(cfg, s, DeliverBlock(n, block, syncing));
    FrameOnce(cfg, height, s, t, n, OnBlock(cfg, n, node, block, syncing).1, None);
  }

  lemma VoteKeepsOnce(cfg: Config, height: nat, s: System, n: Id, vote: Vote, now: nat)
    requires OnceInv(cfg, height, s) && n in s.nodes && NodeInv(cfg, s, n, s.nodes[n]) && vote in s.votes
    requires MovesOn(cfg, height, s, DeliverVote(n, vote, now))
    ensures OnceInv(cfg, height, Step(cfg, s, DeliverVote(n, vote, now)))
  {
    hide OnVote, AfterCommit, TallyInv, Moves, OnePrecommit, OneCommit, AddVote, Ledger.ChainHeight;
    var node := s.nodes[n];
    var o := OnVote(cfg, n, node, vote, now);
    var t := Step(cfg, s, DeliverVote(n, vote, now));
    HeightNeverFalls(cfg, n, node, vote, now);
    VoteOutcomeIff(cfg, n, node, vote, now);
    SentIs(cfg, n, node, vote, now);
    if n in cfg.keyed {
      MovesOnMeans(cfg, height, s, n, vote, now);
      VoteKeepsOwn(cfg, height, s.votes, s.commits, n, node, vote, now);
    }
    var c := CommitRecord(n, vote.height, vote.round, vote.blockHash);
    FrameOnce(cfg, height, s, t, n, o.sent, if o.committed.Some? then Some(c) else None);
  }

  lemma SentIs(cfg: Config, n: Id, node: Node, vote: Vote, now: nat)
    ensures var o := OnVote(cfg, n, node, vote, now);
            && (o.sent.Some? ==> o.sent.value == Vote(node.height, node.round, vote.blockHash, VoteType.Precommit, n))
            && (o.committed.Some? ==> vote.height == node.height)
  {
    hide AfterCommit, AddVote, TryAdvance;
  }

  lemma TimeoutKeepsOnce(cfg: Config, height: nat, s: System, n: Id)
    requires OnceInv(cfg, height, s) && n in s.nodes
    ensures OnceInv(cfg, height, Step(cfg, s, Timeout(n)))
  {
    hide OnVote, OnBlock, OnDownload, OnePrecommit, OneCommit;
    FrameOnce(cfg, height, s, Step(cfg, s, Timeout(n)), n, None, None);
  }

  lemma LedgerKeepsOnce(cfg: Config, height: nat, s: System, n: Id, store: Ledger.Store, pool: Mempool.Pool)
    requires OnceInv(cfg, height, s) && n in s.nodes
    ensures OnceInv(cfg, height, Update(s, n, s.nodes[n].(store := store, pool := pool)))
  {
    hide OnePrecommit, OneCommit;
    FrameOnce(cfg, height, s, Update(s, n, s.nodes[n].(store := store, pool := pool)), n, None, None);
  }

  /** Every step keeps it too, but for a replay into the height and a commit at the
      height that stays put. */
  lemma StepKeepsOnce(cfg: Config, height: nat, s: System, a: Action)
    requires Inv(cfg, height, s) && OnceInv(cfg, height, s)
    requires Genuine(cfg, height, a) && MovesOn(cfg, height, s, a)
    ensures OnceInv(cfg, height, Step(cfg, s, a))
  {
    assert forall n :: n in s.nodes ==> NodeInv(cfg, s, n, s.nodes[n]);
    hide Inv, OnceInv, NodeInv, OnVote, OnBlock, OnTimeout, Moves, Ledger.PruneHistory, Mempool.Insert,
         Execution.ExecuteBlock;
    match a
    case Forge(vote) => if vote.validatorId !in cfg.keyed { StrayKeepsOnce(cfg, height, s, vote); }
    case Replay(vote, h, round, t) =>
      if vote in s.votes { StrayKeepsOnce(cfg, height, s, Vote(h, round, vote.blockHash, t, vote.validatorId)); }
    case DeliverBlock(n, block, syncing) => if n in s.nodes { BlockKeepsOnce(cfg, height, s, n, block, syncing); }
    case DeliverVote(n, vote, now) =>
      if n in s.nodes && vote in s.votes { VoteKeepsOnce(cfg, height, s, n, vote, now); }
    case Timeout(n) => if n in s.nodes { TimeoutKeepsOnce(cfg, height, s, n); }
    case Download(n, block, now) =>
      if n in s.nodes {
        var after := OnDownload(cfg, n, s.nodes[n], block, now);
        LedgerKeepsOnce(cfg, height, s, n, after.store, after.pool);
      }
    case Submit(n, tx) =>
      if n in s.nodes {
        var node := s.nodes[n];
        LedgerKeepsOnce(cfg, height, s, n, node.store,
                        Mempool.Insert(cfg.env, node.store.nullifiers, node.pool, tx).0);
      }
    case Prune(n, keepLast) =>
      if n in s.nodes {
        var node := s.nodes[n];
        LedgerKeepsOnce(cfg, height, s, n, Ledger.PruneHistory(cfg.env, node.store, keepLast).0, node.pool);
      }
  }

  lemma {:induction false} RunKeepsOnce(cfg: Config, height: nat, s: System, actions: seq<Action>)
    requires Inv(cfg, height, s) && OnceInv(cfg, height, s)
    requires Authentic(cfg, height, actions) && AllMoveOn(cfg, height, s, actions)
    ensures OnceInv(cfg, height, Run(cfg, s, actions))
    decreases |actions|
  {
    hide Inv, OnceInv, Step, MovesOn, Genuine;
    if actions != [] {
      StepKeepsInv(cfg, height, s, actions[0]);
      StepKeepsOnce(cfg, height, s, actions[0]);
      RunKeepsOnce(cfg, height, Step(cfg, s, actions[0]), actions[1..]);
    }
  }

  /** Behind every commit of a run stand precommits that were sent: of more than two
      thirds of the validators, the node's own perhaps among them; of three ids at least
      where no validator is registered. */
  lemma CommitsNeedVotes(cfg: Config, ledgers: map<Id, Books>, actions: seq<Action>, c: CommitRecord)
    returns (voters: set<Id>)
    requires Authentic(cfg, c.height, actions) && c in Run(cfg, Start(cfg, ledgers), actions).commits
    ensures var all := cfg.validators(c.height);
            if all == {} then |voters| >= 3
            else voters <= all + Own(cfg, c.node) && 3 * |voters| > 2 * |all|
    ensures forall id :: id in voters ==>
              Vote(c.height, c.round, c.hash, VoteType.Precommit, id) in Run(cfg, Start(cfg, ledgers), actions).votes
  {
    hide Run, Start, Authentic;
    StartInv(cfg, c.height, ledgers);
    RunKeepsInv(cfg, c.height, Start(cfg, ledgers), actions);
    var s := Run(cfg, Start(cfg, ledgers), actions);
    voters :| QuorumOf(cfg, s.votes, c.node, c.height, c.round, c.hash, VoteType.Precommit, voters);
  }

  // ----------------------------------------------------- agreement, validity

  /** The least number of distinct voters that is a quorum of `n` validators. */
  function QuorumSize(n: nat): nat {
    2 * n / 3 + 1
  }

  /** A key holder outside the set counts one vote that no validator sent: its own. */
  function Stray(cfg: Config, n: Id, height: nat): nat {
    if n in cfg.keyed && n !in cfg.validators(height) then 1 else 0
  }

  function Faulty(cfg: Config, height: nat): nat {
    |cfg.validators(height) - cfg.keyed|
  }

  /** Any two quorums, as counted at these nodes, share an honest validator. */
  predicate Overlaps(cfg: Config, height: nat, n: Id, m: Id) {
    var size := |cfg.validators(height)|;
    && cfg.validators(height) != {}
    && 2 * QuorumSize(size) > size + Faulty(cfg, height) + Stray(cfg, n, height) + Stray(cfg, m, height)
  }

  /** Any quorum, as counted at this node, has an honest validator. */
  predicate Outvotes(cfg: Config, height: nat, n: Id) {
    && cfg.validators(height) != {}
    && QuorumSize(|cfg.validators(height)|) > Faulty(cfg, height) + Stray(cfg, n, height)
  }

  lemma SubsetCard<T>(a: set<T>, b: set<T>)
    requires a <= b
    ensures |a| <= |b|
  {
    assert b == a + (b - a);
  }

  lemma QuorumIsSize(voters: set<Id>, n: nat)
    ensures IsQuorum(voters, n) <==> |voters| >= QuorumSize(n)
  {
  }

  /** The validators of a quorum that was counted at `n` are one fewer at most. */
  lemma InnerQuorum(cfg: Config, height: nat, n: Id, p: set<Id>)
    requires cfg.validators(height) != {} && p <= cfg.validators(height) + Own(cfg, n)
    requires IsQuorum(p, TotalValidators(cfg, height))
    ensures |p * cfg.validators(height)| + Stray(cfg, n, height) >= QuorumSize(|cfg.validators(height)|)
  {
    var all := cfg.validators(height);
    QuorumIsSize(p, |all|);
    if n in cfg.keyed && n !in all {
      SubsetCard(p, p * all + {n});
    } else {
      assert p * all == p;
    }
  }

  /** Two quorums share a validator that follows the code. */
  lemma QuorumsShareHonest(cfg: Config, height: nat, n: Id, m: Id, p: set<Id>, q: set<Id>) returns (id: Id)
    requires Overlaps(cfg, height, n, m)
    requires p <= cfg.validators(height) + Own(cfg, n) && q <= cfg.validators(height) + Own(cfg, m)
    requires IsQuorum(p, TotalValidators(cfg, height)) && IsQuorum(q, TotalValidators(cfg, height))
    ensures id in p && id in q && id in cfg.validators(height) && id in cfg.keyed
  {
    var all := cfg.validators(height);
    var (inner, other) := (p * all, q * all);
    InnerQuorum(cfg, height, n, p);
    InnerQuorum(cfg, height, m, q);
    SubsetCard(inner + other, all);
    assert |inner + other| + |inner * other| == |inner| + |other|;
    if inner * other <= all - cfg.keyed {
      SubsetCard(inner * other, all - cfg.keyed);
      assert false;
    }
    id :| id in inner * other && id !in all - cfg.keyed;
  }

  /** A quorum has a validator that follows the code. */
  lemma QuorumHasHonest(cfg: Config, height: nat, n: Id, p: set<Id>) returns (id: Id)
    requires Outvotes(cfg, height, n) && p <= cfg.validators(height) + Own(cfg, n)
    requires IsQuorum(p, TotalValidators(cfg, height))
    ensures id in p && id in cfg.validators(height) && id in cfg.keyed
  {
    var all := cfg.validators(height);
    InnerQuorum(cfg, height, n, p);
    if p * all <= all - cfg.keyed {
      SubsetCard(p * all, all - cfg.keyed);
      assert false;
    }
    id :| id in p * all && id !in all - cfg.keyed;
  }

  /** The usual bound is a case of these: at most a third of the set is not honest, and
      key holders outside the set do not commit. */
  lemma ThirdSuffices(cfg: Config, height: nat, n: Id, m: Id)
    requires cfg.validators(height) != {} && 3 * Faulty(cfg, height) <= |cfg.validators(height)|
    requires Stray(cfg, n, height) == Stray(cfg, m, height) == 0
    ensures Overlaps(cfg, height, n, m) && Outvotes(cfg, height, n)
  {
  }

  lemma InvAgreement(cfg: Config, s: System, c: CommitRecord, d: CommitRecord)
    requires Inv(cfg, c.height, s) && OnceInv(cfg, c.height, s)
    requires (c.node == d.node && c.node in cfg.keyed) || Overlaps(cfg, c.height, c.node, d.node)
    requires c in s.commits && d in s.commits && c.height == d.height && c.round == d.round
    ensures c.hash == d.hash
  {
    if c.node != d.node || c.node !in cfg.keyed {
      var p :| QuorumOf(cfg, s.votes, c.node, c.height, c.round, c.hash, VoteType.Precommit, p);
      var q :| QuorumOf(cfg, s.votes, d.node, d.height, d.round, d.hash, VoteType.Precommit, q);
      var id := QuorumsShareHonest(cfg, c.height, c.node, d.node, p, q);
      assert Vote(c.height, c.round, c.hash, VoteType.Precommit, id) in s.votes;
      assert Vote(d.height, d.round, d.hash, VoteType.Precommit, id) in s.votes;
    }
  }

  /** Agreement: however votes and proposals are delivered, dropped, repeated or forged,
      whatever is executed, refused, downloaded or pruned, and whatever happens at other
      heights, two commits of one (height, round) are for one block hash. */
  lemma Agreement(cfg: Config, ledgers: map<Id, Books>, actions: seq<Action>, c: CommitRecord, d: CommitRecord)
    requires Authentic(cfg, c.height, actions) && AllMoveOn(cfg, c.height, Start(cfg, ledgers), actions)
    requires (c.node == d.node && c.node in cfg.keyed) || Overlaps(cfg, c.height, c.node, d.node)
    requires var s := Run(cfg, Start(cfg, ledgers), actions); c in s.commits && d in s.commits
    requires c.height == d.height && c.round == d.round
    ensures c.hash == d.hash
  {
    var start := Start(cfg, ledgers);
    StartInv(cfg, c.height, ledgers);
    assert OnceInv(cfg, c.height, start);
    RunKeepsInv(cfg, c.height, start, actions);
    RunKeepsOnce(cfg, c.height, start, actions);
    InvAgreement(cfg, Run(cfg, start, actions), c, d);
  }

  lemma InvValidity(cfg: Config, s: System, c: CommitRecord) returns (id: Id)
    requires Inv(cfg, c.height, s) && Outvotes(cfg, c.height, c.node) && c in s.commits
    ensures id in cfg.validators(c.height) && id in cfg.keyed
    ensures Vote(c.height, c.round, c.hash, VoteType.Prevote, id) in s.votes
    ensures Receipt(id, c.height, c.hash) in s.received
  {
    var p :| QuorumOf(cfg, s.votes, c.node, c.height, c.round, c.hash, VoteType.Precommit, p);
    var mid := QuorumHasHonest(cfg, c.height, c.node, p);
    var precommit := Vote(c.height, c.round, c.hash, VoteType.Precommit, mid);
    assert precommit in s.votes && VoteInv(cfg, c.height, s, precommit);
    var q :| QuorumOf(cfg, s.votes, mid, c.height, c.round, c.hash, VoteType.Prevote, q);
    id := QuorumHasHonest(cfg, c.height, mid, q);
    var prevote := Vote(c.height, c.round, c.hash, VoteType.Prevote, id);
    assert prevote in s.votes && VoteInv(cfg, c.height, s, prevote);
  }

  /** Validity: in every run without replays into the height, refused commits included,
      a committed hash was prevoted by an honest validator that took in a proposal with
      that hash at that height. */
  lemma Validity(cfg: Config, ledgers: map<Id, Books>, actions: seq<Action>, c: CommitRecord)
    returns (id: Id)
    requires Authentic(cfg, c.height, actions) && Outvotes(cfg, c.height, c.node)
    requires c in Run(cfg, Start(cfg, ledgers), actions).commits
    ensures id in cfg.validators(c.height) && id in cfg.keyed
    ensures var s := Run(cfg, Start(cfg, ledgers), actions);
            && Vote(c.height, c.round, c.hash, VoteType.Prevote, id) in s.votes
            && Receipt(id, c.height, c.hash) in s.received
  {
    StartInv(cfg, c.height, ledgers);
    RunKeepsInv(cfg, c.height, Start(cfg, ledgers), actions);
    id := InvValidity(cfg, Run(cfg, Start(cfg, ledgers), actions), c);
  }

  /** The nodes took in one proposal at a height, at most. */
  predicate OneProposal(s: System, height: nat) {
    forall r, q :: r in s.received && q in s.received && r.height == q.height == height ==> r.hash == q.hash
  }

  /** If the proposals taken in at a height share one hash, then every block that a node
      executes on commit at that height has the committed hash. */
  lemma ExecutesCommitted(cfg: Config, ledgers: map<Id, Books>, actions: seq<Action>, e: ExecutionRecord)
    requires Authentic(cfg, e.commit.height, actions) && Outvotes(cfg, e.commit.height, e.commit.node)
    requires var s := Run(cfg, Start(cfg, ledgers), actions);
             e in s.executions && OneProposal(s, e.commit.height)
    ensures HashOf(cfg, e.block) == e.commit.hash
  {
    StartInv(cfg, e.commit.height, ledgers);
    RunKeepsInv(cfg, e.commit.height, Start(cfg, ledgers), actions);
    var id := InvValidity(cfg, Run(cfg, Start(cfg, ledgers), actions), e.commit);
  }
}
