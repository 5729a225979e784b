/** What a node does over a run of the protocol, told from the actions alone: the round it
    is in, the proposal it holds, and its store and pool. */
module Conduct {
  import opened Types
  import opened Bft
  import opened Consensus
  import Builder
  import Chain
  import Execution
  import Ledger
  import Mempool
  import Pruning

  // ------------------------------------------------------- rounds and proposals

  /** The last proposal for the height that is delivered to the node while not syncing. */
  function LastTaken(actions: seq<Action>, n: Id, height: nat): Option<Block> {
    if actions == [] then None
    else
      var later := LastTaken(actions[1..], n, height);
      var a := actions[0];
      if later.Some? then later
      else if a.DeliverBlock? && a.node == n && !a.syncing && a.block.header.height == height then Some(a.block)
      else None
  }

  function Timeouts(actions: seq<Action>, n: Id): nat {
    if actions == [] then 0
    else (if actions[0] == Timeout(n) then 1 else 0) + Timeouts(actions[1..], n)
  }

  /** The step makes the node execute a block on commit. */
  predicate ExecutesNow(cfg: Config, s: System, a: Action, n: Id) {
    && a.DeliverVote? && a.node == n && n in s.nodes && a.vote in s.votes
    && OnVote(cfg, n, s.nodes[n], a.vote, a.now).executed.Some?
  }

  predicate Idle(cfg: Config, s: System, actions: seq<Action>, n: Id)
    decreases |actions|
  {
    actions != [] ==> !ExecutesNow(cfg, s, actions[0], n) && Idle(cfg, Step(cfg, s, actions[0]), actions[1..], n)
  }

  predicate SameHeight(node: Node, after: Node, rounds: nat, taken: Option<Block>) {
    && after.height == node.height && after.round == node.round + rounds
    && after.current == (if taken.Some? then taken else node.current)
  }

  lemma IdleVote(cfg: Config, n: Id, node: Node, vote: Vote, now: nat)
    requires OnVote(cfg, n, node, vote, now).executed.None?
    ensures SameHeight(node, OnVote(cfg, n, node, vote, now).node, 0, None)
  {
    hide AfterCommit, AddVote, TryAdvance;
  }

  lemma IdleStep(cfg: Config, s: System, a: Action, n: Id)
    requires n in s.nodes && !ExecutesNow(cfg, s, a, n)
    ensures var t := Step(cfg, s, a);
            n in t.nodes && SameHeight(s.nodes[n], t.nodes[n], Timeouts([a], n), LastTaken([a], n, s.nodes[n].height))
  {
    assert [a][1..] == [];
    var node := s.nodes[n];
    if a.DeliverVote? && a.node == n && a.vote in s.votes {
      IdleVote(cfg, n, node, a.vote, a.now);
    }
    hide OnVote, AddVote, TryAdvance, NewRound, Execution.ExecuteBlock, Mempool.Insert, Ledger.PruneHistory;
  }

  /** Until it executes a block on commit, a node stays at its height, moves to the next
      round with each timeout and in no other way, and holds the proposal it took in last,
      through all rounds. */
  lemma {:induction false} RoundsAndProposals(cfg: Config, s: System, actions: seq<Action>, n: Id)
    requires n in s.nodes && Idle(cfg, s, actions, n)
    ensures var t := Run(cfg, s, actions);
            && n in t.nodes && t.nodes[n].height == s.nodes[n].height
            && t.nodes[n].round == s.nodes[n].round + Timeouts(actions, n)
            && var taken := LastTaken(actions, n, s.nodes[n].height);
               t.nodes[n].current == if taken.Some? then taken else s.nodes[n].current
    decreases |actions|
  {
    hide Step, ExecutesNow;
    if actions != [] {
      var a := actions[0];
      IdleStep(cfg, s, a, n);
      assert [a][1..] == [];
      RoundsAndProposals(cfg, Step(cfg, s, a), actions[1..], n);
    }
  }

  /** So a commit in any later round still executes the last proposal: if a vote then
      commits, the block that is executed is the last one taken in since the height was
      entered, whatever round that was in. */
  lemma CommitExecutesLastTaken(cfg: Config, ledgers: map<Id, Books>, actions: seq<Action>, n: Id, vote: Vote, now: nat)
    requires n in ledgers && Idle(cfg, Start(cfg, ledgers), actions, n)
    ensures var t := Run(cfg, Start(cfg, ledgers), actions);
            && n in t.nodes && t.nodes[n].height == Next(ledgers[n]) && t.nodes[n].round == Timeouts(actions, n)
            && var o := OnVote(cfg, n, t.nodes[n], vote, now);
               o.committed.Some? ==> o.executed == LastTaken(actions, n, Next(ledgers[n]))
  {
    hide Run, Idle, Timeouts, LastTaken;
    RoundsAndProposals(cfg, Start(cfg, ledgers), actions, n);
    VoteOutcomeIff(cfg, n, Run(cfg, Start(cfg, ledgers), actions).nodes[n], vote, now);
    hide OnVote;
    CommittedIs(cfg, n, Run(cfg, Start(cfg, ledgers), actions).nodes[n], vote, now);
  }

  lemma CommittedIs(cfg: Config, n: Id, node: Node, vote: Vote, now: nat)
    ensures var o := OnVote(cfg, n, node, vote, now); o.committed.Some? ==> o.executed == node.current
  {
    hide AfterCommit, AddVote, TryAdvance;
  }

  // -------------------------------------------------------------- store and pool

  /** What the step means for the store and pool of the node. */
  function EventOf(cfg: Config, s: System, a: Action, n: Id): seq<Execution.Event>
    requires n in s.nodes
  {
    if a.DeliverVote? && ExecutesNow(cfg, s, a, n) then
      var block := OnVote(cfg, n, s.nodes[n], a.vote, a.now).executed.value;
      [Execution.Executes(Execution.Local(n in cfg.keyed, a.now, cfg.proofOk, cfg.runtime), block)]
    else if a.Download? && a.node == n && a.block.header.height >= s.nodes[n].height then
      [Execution.Executes(Execution.Local(n in cfg.keyed, a.now, cfg.proofOk, cfg.runtime), a.block)]
    else if a.Submit? && a.node == n then [Execution.Arrives(a.tx)]
    else if a.Prune? && a.node == n then [Execution.Prunes(a.keepLast)]
    else []
  }

  lemma StaysThere(cfg: Config, s: System, a: Action, n: Id)
    requires n in s.nodes
    ensures n in Step(cfg, s, a).nodes
  {
    hide OnVote, OnBlock, OnTimeout, OnDownload, Mempool.Insert, Ledger.PruneHistory;
  }

  function Events(cfg: Config, s: System, actions: seq<Action>, n: Id): seq<Execution.Event>
    requires n in s.nodes
    decreases |actions|
  {
    if actions == [] then []
    else
      StaysThere(cfg, s, actions[0], n);
      EventOf(cfg, s, actions[0], n) + Events(cfg, Step(cfg, s, actions[0]), actions[1..], n)
  }

  predicate Keeps(node: Node, sys: Mempool.Sys) {
    (node.store, node.pool) == (sys.history.store, sys.pool)
  }

  lemma VoteBooks(cfg: Config, n: Id, node: Node, vote: Vote, now: nat)
    ensures var o := OnVote(cfg, n, node, vote, now);
            (o.node.store, o.node.pool)
            == if o.executed.Some?
               then Execution.ExecuteBlock(cfg.env, Execution.Local(n in cfg.keyed, now, cfg.proofOk, cfg.runtime),
                                           node.store, node.pool, o.executed.value)
               else (node.store, node.pool)
  {
    hide AddVote, TryAdvance, Execution.ExecuteBlock, NewRound;
  }

  lemma OneEvent(cfg: Config, s: System, a: Action, n: Id, sys: Mempool.Sys)
    requires n in s.nodes && Keeps(s.nodes[n], sys)
    ensures var t := Step(cfg, s, a);
            n in t.nodes && Keeps(t.nodes[n], Execution.HandleAll(cfg.env, sys, EventOf(cfg, s, a, n)))
  {
    hide Execution.ExecuteBlock, Mempool.Insert, Ledger.PruneHistory;
    var l := EventOf(cfg, s, a, n);
    var node := s.nodes[n];
    if l != [] {
      var t := Execution.Handle(cfg.env, sys, l[0]);
      assert l[1..] == [] && Execution.HandleAll(cfg.env, t, []) == t;
      if l[0].Executes? {
        Execution.ExecutesAsAction(cfg.env, sys, l[0].local, l[0].block);
      }
    }
    if a.DeliverVote? && a.node == n && a.vote in s.votes {
      VoteBooks(cfg, n, node, a.vote, a.now);
    }
    hide OnVote, AddVote, TryAdvance, Execution.Handle;
  }

  lemma {:induction false} HandleConcat(env: Env, s: Mempool.Sys, a: seq<Execution.Event>, b: seq<Execution.Event>)
    ensures Execution.HandleAll(env, s, a + b) == Execution.HandleAll(env, Execution.HandleAll(env, s, a), b)
    decreases |a|
  {
    hide Execution.Handle;
    if a == [] {
      assert a + b == b;
    } else {
      assert (a + b)[1..] == a[1..] + b;
      HandleConcat(env, Execution.Handle(env, s, a[0]), a[1..], b);
    }
  }

  /** Over every run of the protocol, forged and replayed votes included, the store and
      pool of a node are what its events make of them: the blocks it executed on commit or
      downloaded at its height or above, with its own key, clock, verifier and runtime, the
      transactions submitted to it, and its prunings. */
  lemma {:induction false} BooksFollow(cfg: Config, s: System, actions: seq<Action>, n: Id, sys: Mempool.Sys)
    requires n in s.nodes && Keeps(s.nodes[n], sys)
    ensures var t := Run(cfg, s, actions);
            n in t.nodes && Keeps(t.nodes[n], Execution.HandleAll(cfg.env, sys, Events(cfg, s, actions, n)))
    decreases |actions|
  {
    hide Step, EventOf, Keeps;
    if actions != [] {
      OneEvent(cfg, s, actions[0], n, sys);
      var t := Step(cfg, s, actions[0]);
      var first := EventOf(cfg, s, actions[0], n);
      BooksFollow(cfg, t, actions[1..], n, Execution.HandleAll(cfg.env, sys, first));
      HandleConcat(cfg.env, sys, first, Events(cfg, t, actions[1..], n));
    }
  }

  /** What single nodes keep, every node of the protocol keeps: if its store and pool come
      from a history that is in order, then after any run they come from a longer one that
      is, free of double spends, with a consistent pool, and every block that was added met
      the checks of the moment it came. */
  lemma NodesStaySafe(cfg: Config, ledgers: map<Id, Books>, actions: seq<Action>, n: Id, h: Chain.History,
          txs: set<Transaction>)
    returns (g: Chain.History)
    requires n in ledgers && h.store == ledgers[n].0
    requires Mempool.SysInv(cfg.env, Mempool.Sys(h, ledgers[n].1), txs) && Mempool.IdsUnique(cfg.env, txs)
    requires forall e :: e in Events(cfg, Start(cfg, ledgers), actions, n) ==> Execution.EventIn(e, txs)
    ensures var t := Run(cfg, Start(cfg, ledgers), actions);
            && n in t.nodes && g.store == t.nodes[n].store && h.applied <= g.applied
            && Chain.Distinct(Chain.ChainSpends(g.applied))
            && Mempool.PoolInv(cfg.env, g.store.nullifiers, t.nodes[n].pool)
            && forall k :: |h.applied| <= k < |g.applied| ==>
                 Execution.CameSound(cfg.env, Events(cfg, Start(cfg, ledgers), actions, n), g.applied[k])
  {
    hide Run, Events, Execution.HandleAll, Execution.CameSound, Mempool.PoolInv, Mempool.IdsUnique, Execution.EventIn;
    var s := Start(cfg, ledgers);
    var sys := Mempool.Sys(h, ledgers[n].1);
    var events := Events(cfg, s, actions, n);
    BooksFollow(cfg, s, actions, n, sys);
    assert forall i :: 0 <= i < |events| ==> events[i] in events;
    Execution.HandleAllKeepsInv(cfg.env, sys, events, txs);
    g := Execution.HandleAll(cfg.env, sys, events).history;
    Execution.AppliedGrow(cfg.env, sys, events);
    forall k | |h.applied| <= k < |g.applied|
      ensures Execution.CameSound(cfg.env, events, g.applied[k])
    {
      Execution.AppliedAreSound(cfg.env, sys, events, k);
    }
  }

  // ------------------------------------------------------------------ proposing

  /** What a proposal says of itself, after any history: the height and parent of the tip;
      but as epoch its height, and as VRF output the hash of its parent, or zero on the
      first block. On an empty chain it is for a height the node does not work on. */
  lemma ProposalHeader(cfg: Config, u: Pruning.Universe, ops: seq<Chain.Op>, pool: Mempool.Pool, id: Id,
          order: seq<Hash32>, now: nat)
    requires Pruning.CollisionFree(cfg.env, u) && Pruning.OpsIn(ops, u)
    ensures var h := Chain.Run(cfg.env, Chain.GENESIS, ops);
            var node := Enter(cfg, h.store, pool);
            var header := Proposal(cfg, id, node, order, now).header;
            && header.height == |h.applied| == header.epoch - (if h.applied == [] then 1 else 0)
            && header.parentHash
               == (if h.applied == [] then ZERO else cfg.env.headerHash(h.applied[|h.applied| - 1].header))
            && header.vrfOutput == (if |h.applied| < 2 then ZERO else header.parentHash)
            && header.proposer == id && header.timestamp == now
            && (header.height == node.height <==> h.applied != [])
  {
    hide Chain.Run, Pruning.CollisionFree, Builder.BuildBlock, Chain.SpentInv, Chain.LeavesInv, Chain.AnchorsInv,
         Mempool.Select, Ledger.GetBlockByHeight;
    var h := Chain.Run(cfg.env, Chain.GENESIS, ops);
    var node := Enter(cfg, h.store, pool);
    var txs := Mempool.Select(cfg.env, pool, order, Builder.MAX_BLOCK_TXS, MAX_BLOCK_GAS);
    Chain.GenesisInv(cfg.env);
    Chain.RunKeepsInv(cfg.env, Chain.GENESIS, ops);
    var parent := if node.height > 1 then Ledger.GetBlockByHeight(node.store, node.height - 1) else None;
    var parentHash := if parent.Some? then HashOf(cfg, parent.value) else ZERO;
    Builder.BuiltOnTip(cfg.env, u, ops, txs, id, parentHash, now, node.height);
    Builder.HeaderCarries(cfg.env, h.store, txs, id, parentHash, now, node.height);
    if |h.applied| > 1 {
      Pruning.ReadsAfterAnyRun(cfg.env, u, ops, |h.applied| - 1);
    }
  }

  /** And its body: what the pool selects, at most ten thousand transactions within a
      hundred million gas, with nothing dropped. */
  lemma ProposalBody(cfg: Config, id: Id, node: Node, order: seq<Hash32>, now: nat)
    requires Mempool.Keyed(cfg.env, node.pool) && Mempool.IsShuffle(node.pool, order)
    ensures var b := Proposal(cfg, id, node, order, now);
            && b.transactions == Mempool.Select(cfg.env, node.pool, order, 10_000, 100_000_000)
            && Builder.Describes(cfg.env, b) && b.header.height == Ledger.ExpectedHeight(node.store)
  {
    hide Mempool.Select, Builder.Truncate, Ledger.GetBlockByHeight, Mempool.IsShuffle, Builder.TxRoot;
    Builder.SelectionIsKept(cfg.env, node.pool, order);
    var txs := Mempool.Select(cfg.env, node.pool, order, Builder.MAX_BLOCK_TXS, MAX_BLOCK_GAS);
    var parent := if node.height > 1 then Ledger.GetBlockByHeight(node.store, node.height - 1) else None;
    var parentHash := if parent.Some? then HashOf(cfg, parent.value) else ZERO;
    Builder.Built(cfg.env, node.store, txs, id, parentHash, now, node.height);
  }
}
