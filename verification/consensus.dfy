/** The consensus event loop of one node, and the protocol that any number of
    such nodes run against validators that vote as they please. */
module Consensus {
  import opened Types
  import opened Bft
  import Builder
  import Chain
  import Contracts
  import Execution
  import Ledger
  import Mempool

  // ---------------------------------------------------------------- one node

  /** What the nodes share: the hash functions, the validator set of each height (read
      from the store), the ids that sign with a key held by an honest node, the proof
      verifier and the contract runtime. */
  datatype Config = Config(
    env: Env,
    validators: nat -> set<Id>,
    keyed: set<Id>,
    proofOk: Transaction -> bool,
    runtime: Contracts.Runtime)

  /** The variables of the loop, and the node's own store and pool. */
  datatype Node = Node(
    height: nat, round: nat, bft: Round, current: Option<Block>, store: Ledger.Store, pool: Mempool.Pool)

  /** The store and pool of a node. */
  type Books = (Ledger.Store, Mempool.Pool)

  /** The height that a node with these books works on. */
  function Next(at: Books): nat {
    Ledger.ChainHeight(at.0) + 1
  }

  function HashOf(cfg: Config, block: Block): Hash32 {
    cfg.env.headerHash(block.header)
  }

  function TotalValidators(cfg: Config, height: nat): nat {
    if cfg.validators(height) == {} then 4 else |cfg.validators(height)|
  }

  /** The outer loop enters the height after the node's chain. */
  function Enter(cfg: Config, store: Ledger.Store, pool: Mempool.Pool): Node {
    var height := Ledger.ChainHeight(store) + 1;
    Node(height, 0, NewRound(height, 0, TotalValidators(cfg, height)), None, store, pool)
  }

  /** A proposal arrives. */
  function OnBlock(cfg: Config, id: Id, node: Node, block: Block, syncing: bool): (Node, Option<Vote>) {
    if block.header.height != node.height || syncing then (node, None)
    else
      var hash := HashOf(cfg, block);
      var bft := TryAdvance(node.bft, hash).0;
      if id in cfg.keyed then
        var vote := Vote(node.height, node.round, hash, VoteType.Prevote, id);
        (node.(current := Some(block), bft := AddVote(bft, vote).0), Some(vote))
      else
        (node.(current := Some(block), bft := bft), None)
  }

  /** The leader's proposal on entering a height. The arguments are those of the code: the
      hash of the parent stands for the randomness, and the height for the epoch. */
  function Proposal(cfg: Config, id: Id, node: Node, order: seq<Hash32>, now: nat): Block {
    var txs := Mempool.Select(cfg.env, node.pool, order, Builder.MAX_BLOCK_TXS, MAX_BLOCK_GAS);
    var parent := if node.height > 1 then Ledger.GetBlockByHeight(node.store, node.height - 1) else None;
    var parentHash := if parent.Some? then HashOf(cfg, parent.value) else ZERO;
    Builder.BuildBlock(cfg.env, node.store, txs, id, parentHash, now, node.height)
  }

  predicate Accepts(cfg: Config, node: Node, vote: Vote) {
    && vote.height == node.height && vote.round == node.round
    && (vote.validatorId in cfg.validators(node.height) || cfg.validators(node.height) == {})
  }

  /** A node holds a key exactly when it runs as a validator. */
  function LocalOf(cfg: Config, id: Id, now: nat): Execution.Local {
    Execution.Local(id in cfg.keyed, now, cfg.proofOk, cfg.runtime)
  }

  /** The node executes a block and the outer loop starts over. */
  function AfterCommit(cfg: Config, id: Id, node: Node, block: Block, now: nat): Node {
    var (store, pool) := Execution.ExecuteBlock(cfg.env, LocalOf(cfg, id, now), node.store, node.pool, block);
    Enter(cfg, store, pool)
  }

  datatype VoteOutcome = VoteOutcome(
    node: Node, sent: Option<Vote>, committed: Option<Hash32>, executed: Option<Block>)

  /** A vote arrives; `now` is the clock if it makes the node execute a block. */
  function OnVote(cfg: Config, id: Id, node: Node, vote: Vote, now: nat): VoteOutcome {
    if !Accepts(cfg, node, vote) then VoteOutcome(node, None, None, None)
    else
      var (counted, isNew) := AddVote(node.bft, vote);
      if !isNew then VoteOutcome(node.(bft := counted), None, None, None)
      else
        var (bft, phase) := TryAdvance(counted, vote.blockHash);
        if phase == Some(BftPhase.Precommit) && id in cfg.keyed then
          var own := Vote(node.height, node.round, vote.blockHash, VoteType.Precommit, id);
          VoteOutcome(node.(bft := AddVote(bft, own).0), Some(own), None, None)
        else if phase == Some(BftPhase.Commit) then
          if node.current.Some? then
            VoteOutcome(AfterCommit(cfg, id, node, node.current.value, now), None, Some(vote.blockHash), node.current)
          else
            VoteOutcome(node.(bft := bft), None, Some(vote.blockHash), None)
        else VoteOutcome(node.(bft := bft), None, None, None)
  }

  function OnTimeout(cfg: Config, node: Node): Node {
    node.(round := node.round + 1, bft := NewRound(node.height, node.round + 1, TotalValidators(cfg, node.height)))
  }

  /** A block arrives by sync: it is executed, and the loop keeps its height. */
  function OnDownload(cfg: Config, id: Id, node: Node, block: Block, now: nat): Node {
    if block.header.height < node.height then node
    else
      var (store, pool) := Execution.ExecuteBlock(cfg.env, LocalOf(cfg, id, now), node.store, node.pool, block);
      node.(store := store, pool := pool)
  }

  /** Exactly when a vote makes a node precommit or commit: it is accepted, it was
      not counted before, and with it the tally of its block is a quorum for the
      phase the node is in. A commit executes the last proposal taken in. */
  lemma VoteOutcomeIff(cfg: Config, id: Id, node: Node, vote: Vote, now: nat)
    ensures var o := OnVote(cfg, id, node, vote, now);
            var tally := if vote.voteType == VoteType.Prevote then node.bft.prevotes else node.bft.precommits;
            var counts := && Accepts(cfg, node, vote)
                          && vote.height == node.bft.height && vote.round == node.bft.round
                          && vote.validatorId !in Voters(tally, vote.blockHash);
            var counted := AddVote(node.bft, vote).0;
            && (o.sent == Some(Vote(node.height, node.round, vote.blockHash, VoteType.Precommit, id)) <==>
                  && counts && id in cfg.keyed && node.bft.phase == BftPhase.Prevote
                  && IsQuorum(Voters(counted.prevotes, vote.blockHash), node.bft.totalValidators))
            && (o.committed == Some(vote.blockHash) <==>
                  && counts && node.bft.phase == BftPhase.Precommit
                  && IsQuorum(Voters(counted.precommits, vote.blockHash), node.bft.totalValidators))
            && o.executed == (if o.committed.Some? then node.current else None)
            && (o.executed.Some? ==> o.node == AfterCommit(cfg, id, node, o.executed.value, now))
  {
    hide AfterCommit;
  }

  // ------------------------------------------------- when a commit moves it on

  /** The guards of execution and application, over a store that has blocks: its chain
      is past the block's height already, or the block is next, passes the node's
      checks, and lists distinct, unspent nullifiers. */
  ghost predicate Moves(cfg: Config, id: Id, s: Ledger.Store, block: Block, now: nat) {
    && s.chainHeight.Some?
    && (|| Ledger.ExpectedHeight(s) > block.header.height
        || (&& Ledger.ExpectedHeight(s) == block.header.height
            && Execution.Sound(cfg.env, LocalOf(cfg, id, now), block)
            && Chain.Distinct(Chain.Spends(block.transactions))
            && Chain.Disjoint(Chain.Spends(block.transactions), s.nullifiers)))
  }

  /** A commit takes the node to a greater height exactly when the guards say so (the
      loop never works on height 0). */
  lemma MovesIff(cfg: Config, id: Id, node: Node, block: Block, now: nat)
    ensures AfterCommit(cfg, id, node, block, now).height > block.header.height <==>
              block.header.height == 0 || Moves(cfg, id, node.store, block, now)
  {
    hide Execution.ExecuteBlock, Execution.Sound, Chain.Distinct, Chain.Disjoint;
    Execution.ExecutedHeight(cfg.env, LocalOf(cfg, id, now), node.store, node.pool, block);
  }

  /** Execution never takes a chain back. */
  lemma ChainNeverShrinks(env: Env, l: Execution.Local, s: Ledger.Store, p: Mempool.Pool, block: Block)
    ensures Ledger.ChainHeight(Execution.ExecuteBlock(env, l, s, p, block).0) >= Ledger.ChainHeight(s)
  {
    hide Execution.ExecuteBlock, Execution.Sound, Chain.Distinct, Chain.Disjoint;
    Execution.ExecutedHeight(env, l, s, p, block);
  }

  // ------------------------------------------------------------ the protocol

  datatype Receipt = Receipt(node: Id, height: nat, hash: Hash32)
  datatype CommitRecord = CommitRecord(node: Id, height: nat, round: nat, hash: Hash32)
  datatype ExecutionRecord = ExecutionRecord(commit: CommitRecord, block: Block)

  /** The nodes that follow the code, every vote ever sent, and a record of the
      proposals taken in, the commits reached and the blocks executed on commit. */
  datatype System = System(
    nodes: map<Id, Node>,
    votes: set<Vote>,
    received: set<Receipt>,
    commits: set<CommitRecord>,
    executions: set<ExecutionRecord>)

  datatype Action =
    | Forge(vote: Vote)
    | Replay(vote: Vote, height: nat, round: nat, voteType: VoteType)
    | DeliverBlock(node: Id, block: Block, syncing: bool)
    | DeliverVote(node: Id, vote: Vote, now: nat)
    | Timeout(node: Id)
    | Download(node: Id, block: Block, now: nat)
    | Submit(node: Id, tx: Transaction)
    | Prune(node: Id, keepLast: nat)

  function Sent(v: Option<Vote>): set<Vote> {
    if v.Some? then {v.value} else {}
  }

  function Update(s: System, n: Id, node: Node): System {
    s.(nodes := s.nodes[n := node])
  }

  /** An id that is not an honest key may vote anything at any time. A vote's signature
      covers the block hash alone, so that a vote can be replayed for that hash as a vote
      of another height, round or kind. Votes and blocks that were sent can be
      delivered to any node, any number of times. */
  function Step(cfg: Config, s: System, a: Action): System {
    match a
    case Forge(vote) =>
      if vote.validatorId in cfg.keyed then s else s.(votes := s.votes + {vote})
    case Replay(vote, height, round, t) =>
      if vote !in s.votes then s
      else s.(votes := s.votes + {Vote(height, round, vote.blockHash, t, vote.validatorId)})
    case DeliverBlock(n, block, syncing) =>
      if n !in s.nodes then s
      else
        var (node, sent) := OnBlock(cfg, n, s.nodes[n], block, syncing);
        var taken := if block.header.height == s.nodes[n].height && !syncing
                     then {Receipt(n, block.header.height, HashOf(cfg, block))} else {};
        Update(s, n, node).(votes := s.votes + Sent(sent), received := s.received + taken)
    case DeliverVote(n, vote, now) =>
      if n !in s.nodes || vote !in s.votes then s
      else
        var o := OnVote(cfg, n, s.nodes[n], vote, now);
        var c := CommitRecord(n, vote.height, vote.round, vote.blockHash);
        Update(s, n, o.node).(
          votes := s.votes + Sent(o.sent),
          commits := s.commits + (if o.committed.Some? then {c} else {}),
          executions := s.executions + (if o.executed.Some? then {ExecutionRecord(c, o.executed.value)} else {}))
    case Timeout(n) =>
      if n !in s.nodes then s else Update(s, n, OnTimeout(cfg, s.nodes[n]))
    case Download(n, block, now) =>
      if n !in s.nodes then s else Update(s, n, OnDownload(cfg, n, s.nodes[n], block, now))
    case Submit(n, tx) =>
      if n !in s.nodes then s
      else
        var node := s.nodes[n];
        Update(s, n, node.(pool := Mempool.Insert(cfg.env, node.store.nullifiers, node.pool, tx).0))
    case Prune(n, keepLast) =>
      if n !in s.nodes then s
      else
        var node := s.nodes[n];
        Update(s, n, node.(store := Ledger.PruneHistory(cfg.env, node.store, keepLast).0))
  }

  function Run(cfg: Config, s: System, actions: seq<Action>): System
    decreases |actions|
  {
    if actions == [] then s else Run(cfg, Step(cfg, s, actions[0]), actions[1..])
  }

  /** The nodes enter the heights after their chains; nothing was sent. */
  function Start(cfg: Config, ledgers: map<Id, Books>): System {
    System(map n | n in ledgers :: Enter(cfg, ledgers[n].0, ledgers[n].1), {}, {}, {}, {})
  }

  /** If the step makes an honest key's node execute a block at this height, the guards
      let the block through (or the chain is past it): the node goes on to a greater
      height, and so keeps one vote state for each round of this one. */
  ghost predicate MovesOn(cfg: Config, height: nat, s: System, a: Action) {
    && a.DeliverVote? && a.node in s.nodes && a.node in cfg.keyed && a.vote in s.votes && a.vote.height == height
    && OnVote(cfg, a.node, s.nodes[a.node], a.vote, a.now).executed.Some?
    ==> Moves(cfg, a.node, s.nodes[a.node].store,
              OnVote(cfg, a.node, s.nodes[a.node], a.vote, a.now).executed.value, a.now)
  }

  ghost predicate AllMoveOn(cfg: Config, height: nat, s: System, actions: seq<Action>)
    decreases |actions|
  {
    actions != [] ==>
      MovesOn(cfg, height, s, actions[0]) && AllMoveOn(cfg, height, Step(cfg, s, actions[0]), actions[1..])
  }

  /** No vote of an honest key is replayed as a vote of this height. */
  predicate Genuine(cfg: Config, height: nat, a: Action) {
    a.Replay? && a.height == height ==> a.vote.validatorId !in cfg.keyed
  }

  predicate Authentic(cfg: Config, height: nat, actions: seq<Action>) {
    forall i :: 0 <= i < |actions| ==> Genuine(cfg, height, actions[i])
  }

  // ---------------------------------------------------------- the event loop

  class ConsensusEngine {
    const cfg: Config
    const id: Id
    const store: Ledger.StateStore
    const pool: Mempool.PrivateMempool
    const builder: Builder.BlockBuilder
    var height: nat
    var round: nat
    var bft: BftRoundState
    var current: Option<Block>

    function State(): Node
      reads this, bft, store.Parts(), pool
    {
      Node(height, round, bft.State(), current, store.State(), pool.State())
    }

    ghost predicate Valid()
      reads store.Parts(), pool
    {
      store.Valid() && store.env == pool.env == cfg.env && builder.state == store
    }

    constructor (cfg: Config, id: Id, store: Ledger.StateStore, pool: Mempool.PrivateMempool)
      requires store.Valid() && store.env == pool.env == cfg.env
      ensures Valid() && fresh(bft)
      ensures this.cfg == cfg && this.id == id && this.store == store && this.pool == pool
      ensures State() == Enter(cfg, store.State(), pool.State())
    {
      this.cfg, this.id, this.store, this.pool := cfg, id, store, pool;
      var next := Ledger.ChainHeight(store.State()) + 1;
      height, round, current := next, 0, None;
      bft := new BftRoundState(next, 0, TotalValidators(cfg, next));
      builder := new Builder.BlockBuilder(store);
    }

    /** `order` is the order in which the shuffle leaves the pool's keys. */
    method Propose(order: seq<Hash32>, now: nat) returns (block: Block)
      requires Valid()
      ensures block == Proposal(cfg, id, State(), order, now)
    {
      var txs := pool.SelectForBlock(order, Builder.MAX_BLOCK_TXS, MAX_BLOCK_GAS);
      var parentHash := ZERO;
      if height > 1 {
        var parent := Ledger.GetBlockByHeight(store.State(), height - 1);
        if parent.Some? {
          parentHash := HashOf(cfg, parent.value);
        }
      }
      block := builder.Build(txs, id, parentHash, now, height);
    }

    method ReceiveBlock(block: Block, syncing: bool) returns (sent: Option<Vote>)
      requires Valid()
      modifies this, bft
      ensures Valid() && bft == old(bft)
      ensures (State(), sent) == OnBlock(cfg, id, old(State()), block, syncing)
    {
      sent := None;
      if block.header.height == height && !syncing {
        var hash := HashOf(cfg, block);
        current := Some(block);
        var _ := bft.TryAdvancePhase(hash);
        if id in cfg.keyed {
          var vote := Vote(height, round, hash, VoteType.Prevote, id);
          sent := Some(vote);
          var _ := bft.RecordVote(vote);
        }
      }
    }

    method ReceiveVote(vote: Vote, now: nat)
      returns (sent: Option<Vote>, committed: Option<Hash32>, executed: Option<Block>)
      requires Valid()
      modifies this, bft, store.Parts(), pool
      ensures Valid() && (bft == old(bft) || fresh(bft))
      ensures VoteOutcome(State(), sent, committed, executed) == OnVote(cfg, id, old(State()), vote, now)
    {
      sent, committed, executed := None, None, None;
      if vote.height == height && vote.round == round {
        var isValid := vote.validatorId in cfg.validators(height) || cfg.validators(height) == {};
        if isValid {
          var isNew := bft.RecordVote(vote);
          if isNew {
            var newPhase := bft.TryAdvancePhase(vote.blockHash);
            if newPhase == Some(BftPhase.Precommit) {
              if id in cfg.keyed {
                var own := Vote(height, round, vote.blockHash, VoteType.Precommit, id);
                sent := Some(own);
                var _ := bft.RecordVote(own);
              }
            } else if newPhase == Some(BftPhase.Commit) {
              committed := Some(vote.blockHash);
              if current.Some? {
                executed := current;
                ExecuteAndEnter(current.value, now);
              }
            }
          }
        }
      }
    }

    /** Executes the block and starts the outer loop over. */
    method ExecuteAndEnter(block: Block, now: nat)
      requires Valid()
      modifies this, store.Parts(), pool
      ensures Valid() && fresh(bft)
      ensures State() == AfterCommit(cfg, id, old(State()), block, now)
    {
      Execution.ExecuteAndApply(LocalOf(cfg, id, now), store, pool, block);
      var h := store.GetChainHeight();
      height, round, current := h + 1, 0, None;
      bft := new BftRoundState(height, 0, TotalValidators(cfg, height));
    }

    /** One block of a sync response; the response arm loops over them. */
    method ReceiveDownload(block: Block, now: nat)
      requires Valid()
      modifies store.Parts(), pool
      ensures Valid()
      ensures State() == OnDownload(cfg, id, old(State()), block, now)
    {
      if block.header.height >= height {
        Execution.ExecuteAndApply(LocalOf(cfg, id, now), store, pool, block);
      }
    }

    method RoundTimeout()
      requires Valid()
      modifies this
      ensures Valid() && fresh(bft)
      ensures State() == OnTimeout(cfg, old(State()))
    {
      round := round + 1;
      bft := new BftRoundState(height, round, TotalValidators(cfg, height));
    }
  }
}
