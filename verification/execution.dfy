/** Executing a block on a node: its checks, the contract phase, the application
    to the store, the state root check and the clean-up of the pool. */
module Execution {
  import opened Types
  import opened Merkle
  import opened Ledger
  import opened Chain
  import opened Mempool
  import opened Builder
  import Contracts

  /** What a node brings to a block: whether it validates, its clock, the proof
      verifier and the contract runtime. */
  datatype Local = Local(isValidator: bool, now: nat, proofOk: Transaction -> bool, runtime: Contracts.Runtime)

  const CLOCK_SKEW: nat := 60

  predicate Admits(env: Env, l: Local, block: Block) {
    && !(l.isValidator && block.aggregateSig == [])
    && block.header.timestamp <= l.now + CLOCK_SKEW
    && forall i :: 0 <= i < |block.transactions| ==> AdmitsTx(env, l, block.transactions[i])
  }

  predicate AdmitsTx(env: Env, l: Local, tx: Transaction) {
    (tx.spends != [] ==> l.proofOk(tx)) && WellFormed(env, tx) && tx.gasLimit <= MAX_TX_GAS
  }

  /** The store and pool after a block was handed to the node. */
  function ExecuteBlock(env: Env, l: Local, s: Store, p: Pool, block: Block): (Store, Pool) {
    if !Admits(env, l, block) then (s, p)
    else
      var c := Contracts.Phase(l.runtime, s, block.transactions);
      var (after, r) := ApplyBlock(env, s, block, c.changes, c.added);
      (after, if r == Ok(block.header.stateRoot) then RemoveMined(env, p, block.transactions) else p)
  }

  method ExecuteAndApply(l: Local, store: StateStore, pool: PrivateMempool, block: Block)
    requires store.Valid() && pool.env == store.env
    modifies store.Parts(), pool
    ensures store.Valid()
    ensures (store.State(), pool.State()) == ExecuteBlock(store.env, l, old(store.State()), old(pool.State()), block)
  {
    if l.isValidator && block.aggregateSig == [] {
      return;
    }
    if block.header.timestamp > l.now + CLOCK_SKEW {
      return;
    }
    for i := 0 to |block.transactions|
      invariant forall j :: 0 <= j < i ==> AdmitsTx(store.env, l, block.transactions[j])
    {
      var tx := block.transactions[i];
      if tx.spends != [] && !l.proofOk(tx) {
        return;
      }
      if FormatError(store.env, tx).Some? {
        return;
      }
      if tx.gasLimit > MAX_TX_GAS {
        return;
      }
    }
    var changes, added := Contracts.ExecuteContracts(l.runtime, store.State(), block.transactions);
    var r := store.Apply(block, changes, added);
    if r == Ok(block.header.stateRoot) {
      pool.CleanUp(block.transactions);
    }
  }

  // --------------------------------------------------------------- whole runs

  /** What happens to a node, in any order: transactions arrive, blocks arrive by
      proposal or sync, and history is pruned. */
  datatype Event = Arrives(tx: Transaction) | Executes(local: Local, block: Block) | Prunes(keepLast: nat)

  function AsAction(env: Env, s: Sys, e: Event): Option<PoolAction> {
    match e
    case Arrives(tx) => Some(Submit(tx))
    case Prunes(keepLast) => Some(PoolAction.Ledger(Prune(keepLast), false))
    case Executes(l, block) =>
      if !Admits(env, l, block) then None
      else
        var c := Contracts.Phase(l.runtime, s.history.store, block.transactions);
        var r := ApplyBlock(env, s.history.store, block, c.changes, c.added).1;
        Some(PoolAction.Ledger(Apply(block, c.changes, c.added), r == Ok(block.header.stateRoot)))
  }

  function Handle(env: Env, s: Sys, e: Event): Sys {
    var a := AsAction(env, s, e);
    if a.Some? then Act(env, s, a.value) else s
  }

  function HandleAll(env: Env, s: Sys, events: seq<Event>): Sys
    decreases |events|
  {
    if events == [] then s else HandleAll(env, Handle(env, s, events[0]), events[1..])
  }

  /** An executed block is an action of the pool-and-ledger system: an application,
      followed by a clean-up exactly when it succeeds with the root in the header. */
  lemma ExecutesAsAction(env: Env, s: Sys, l: Local, block: Block)
    ensures var t := Handle(env, s, Executes(l, block));
            (t.history.store, t.pool) == ExecuteBlock(env, l, s.history.store, s.pool, block)
  {
  }

  predicate EventIn(e: Event, txs: set<Transaction>) {
    match e
    case Arrives(tx) => tx in txs
    case Executes(_, block) => forall tx :: tx in block.transactions ==> tx in txs
    case Prunes(_) => true
  }

  lemma {:induction false} HandleAllKeepsInv(env: Env, s: Sys, events: seq<Event>, txs: set<Transaction>)
    requires SysInv(env, s, txs) && IdsUnique(env, txs)
    requires forall i :: 0 <= i < |events| ==> EventIn(events[i], txs)
    ensures SysInv(env, HandleAll(env, s, events), txs)
    decreases |events|
  {
    hide SysInv, Act, IdsUnique;
    if events != [] {
      var a := AsAction(env, s, events[0]);
      if a.Some? {
        ActKeepsInv(env, s, a.value, txs);
      }
      HandleAllKeepsInv(env, Handle(env, s, events[0]), events[1..], txs);
    }
  }

  /** Over every run of a node from an empty store and pool, whatever blocks it is
      handed and whenever it prunes: no double spend among the applied blocks, and a
      consistent pool. */
  lemma NodeIsSafe(env: Env, events: seq<Event>, txs: set<Transaction>)
    requires IdsUnique(env, txs) && forall i :: 0 <= i < |events| ==> EventIn(events[i], txs)
    ensures var s := HandleAll(env, Sys(GENESIS, EMPTY_POOL), events);
            && Distinct(ChainSpends(s.history.applied))
            && (forall k :: 0 <= k < |s.history.applied| ==> s.history.applied[k].header.height == k)
            && PoolInv(env, s.history.store.nullifiers, s.pool)
  {
    GenesisInv(env);
    HandleAllKeepsInv(env, Sys(GENESIS, EMPTY_POOL), events, txs);
  }

  // ------------------------------------------------- what an applied block met

  /** What a node demands of a block before it looks at its own store. */
  ghost predicate Sound(env: Env, l: Local, block: Block) {
    && (l.isValidator ==> |block.aggregateSig| > 0)
    && block.header.timestamp <= l.now + 60
    && forall tx :: tx in block.transactions ==>
         && (|tx.spends| > 0 ==> l.proofOk(tx))
         && forall rule :: !Breaks(env, tx, rule)
  }

  lemma AdmitsIff(env: Env, l: Local, block: Block)
    ensures Admits(env, l, block) <==> Sound(env, l, block)
  {
    hide Breaks, FormatError;
    forall tx
      ensures AdmitsTx(env, l, tx) <==> (|tx.spends| > 0 ==> l.proofOk(tx)) && forall rule :: !Breaks(env, tx, rule)
    {
      WellFormedMeans(env, tx);
    }
    assert forall i :: 0 <= i < |block.transactions| ==> block.transactions[i] in block.transactions;
    if Sound(env, l, block) {
      assert forall tx :: tx in block.transactions ==> AdmitsTx(env, l, tx);
    }
  }

  /** The separate gas check of the engine never refuses a block. */
  lemma WellFormedMeans(env: Env, tx: Transaction)
    ensures WellFormed(env, tx) <==> forall rule :: !Breaks(env, tx, rule)
    ensures WellFormed(env, tx) ==> tx.gasLimit <= MAX_TX_GAS
  {
    FirstRuleBroken(env, tx, UnsupportedVersion);
    assert !Breaks(env, tx, GasLimitTooHigh) ==> tx.gasLimit <= MAX_TX_GAS;
  }

  /** Exactly when a block gets into the chain, and what then is its new height. */
  lemma ExecutedHeight(env: Env, l: Local, s: Store, p: Pool, block: Block)
    ensures var applies := && block.header.height == ExpectedHeight(s) && Sound(env, l, block)
                           && Distinct(Spends(block.transactions))
                           && Disjoint(Spends(block.transactions), s.nullifiers);
            ExecuteBlock(env, l, s, p, block).0.chainHeight
            == (if applies then Some(block.header.height) else s.chainHeight)
  {
    hide Admits, Sound;
    AdmitsIff(env, l, block);
    var c := Contracts.Phase(l.runtime, s, block.transactions);
    Accepted(env, s, block, c.changes, c.added);
    AppliedHeight(env, s, block, c.changes, c.added);
  }

  lemma AppliedHeight(env: Env, s: Store, block: Block, changes: map<Bytes, Bytes>, added: seq<(Hash32, Bytes)>)
    ensures var (after, r) := ApplyBlock(env, s, block, changes, added);
            after.chainHeight == if r.Ok? then Some(block.header.height) else s.chainHeight
  {
  }

  /** The block came to the node in one of these events, and met its demands there. */
  ghost predicate CameSound(env: Env, events: seq<Event>, block: Block) {
    exists i :: 0 <= i < |events| && events[i].Executes? && events[i].block == block
                && Sound(env, events[i].local, block)
  }

  lemma CameLater(env: Env, e: Event, events: seq<Event>, block: Block)
    requires CameSound(env, events, block) || (e.Executes? && e.block == block && Sound(env, e.local, block))
    ensures CameSound(env, [e] + events, block)
  {
    hide Sound;
    var all := [e] + events;
    if CameSound(env, events, block) {
      var i :| 0 <= i < |events| && events[i].Executes? && events[i].block == block
               && Sound(env, events[i].local, block);
      assert all[i + 1] == events[i];
    } else {
      assert all[0] == e;
    }
  }

  lemma HandleAppends(env: Env, s: Sys, e: Event)
    ensures var t := Handle(env, s, e);
            t.history.applied == s.history.applied
            || (e.Executes? && Sound(env, e.local, e.block) && t.history.applied == s.history.applied + [e.block])
  {
    hide Admits, Sound, ApplyBlock, Contracts.Phase, RemoveMined, PruneHistory, Insert;
    if e.Executes? {
      AdmitsIff(env, e.local, e.block);
    }
  }

  /** Over every run of a node, each block that it applied came in an event whose local
      checks it met: the signature if the node validates, the clock of that moment, the
      proof of every transaction with spends, and every rule of the format. */
  lemma {:induction false} AppliedAreSound(env: Env, s: Sys, events: seq<Event>, k: nat)
    requires |s.history.applied| <= k < |HandleAll(env, s, events).history.applied|
    ensures CameSound(env, events, HandleAll(env, s, events).history.applied[k])
    ensures s.history.applied <= HandleAll(env, s, events).history.applied
    decreases |events|
  {
    hide Handle, Sound, CameSound;
    if events != [] {
      var (e, rest) := (events[0], events[1..]);
      var t := Handle(env, s, e);
      HandleAppends(env, s, e);
      AppliedGrow(env, t, rest);
      assert [e] + rest == events;
      var block := HandleAll(env, s, events).history.applied[k];
      if k >= |t.history.applied| {
        AppliedAreSound(env, t, rest, k);
      } else {
        assert block == t.history.applied[k] == e.block;
      }
      CameLater(env, e, rest, block);
    }
  }

  lemma {:induction false} AppliedGrow(env: Env, s: Sys, events: seq<Event>)
    ensures s.history.applied <= HandleAll(env, s, events).history.applied
    decreases |events|
  {
    hide Handle, Sound;
    if events != [] {
      HandleAppends(env, s, events[0]);
      AppliedGrow(env, Handle(env, s, events[0]), events[1..]);
    }
  }

  // ------------------------------------------------- where the pieces do not fit

  /** The builder leaves the aggregate signature empty, and a validator turns blocks
      without one away: it never applies a block as its builder made it. */
  lemma ValidatorRefusesBuiltBlocks(env: Env, l: Local, s: Store, p: Pool, txs: seq<Transaction>, proposer: Hash32,
          vrf: Hash32, timestamp: nat, epoch: nat)
    ensures var b := BuildBlock(env, s, txs, proposer, vrf, timestamp, epoch);
            l.isValidator ==> ExecuteBlock(env, l, s, p, b) == (s, p)
  {
  }

  /** A node that does apply a built block keeps the mined transactions in its pool,
      unless all outputs of the block are zero: the root check fails first. */
  lemma MinedTxsStay(env: Env, l: Local, s: Store, p: Pool, leaves: seq<Hash32>, txs: seq<Transaction>,
          proposer: Hash32, vrf: Hash32, timestamp: nat, epoch: nat)
    requires Represents(env.hashPair, s.tree, leaves)
    requires Indexed(s.commitments, leaves)
    requires var b := BuildBlock(env, s, txs, proposer, vrf, timestamp, epoch);
             var c := Contracts.Phase(l.runtime, s, b.transactions);
             && ApplyBlock(env, s, b, c.changes, c.added).1.Ok?
             && (exists x :: x in Outputs(b.transactions) && x != ZERO)
             && Unambiguous(env.hashPair, |s.tree.frontier|, leaves, Outputs(b.transactions))
    ensures var b := BuildBlock(env, s, txs, proposer, vrf, timestamp, epoch);
            ExecuteBlock(env, l, s, p, b).1 == p
  {
    hide BuildBlock, ApplyBlock, Contracts.Phase, Unambiguous, Represents, Outputs, Admits;
    var b := BuildBlock(env, s, txs, proposer, vrf, timestamp, epoch);
    var c := Contracts.Phase(l.runtime, s, b.transactions);
    StateRootCheckPasses(env, s, leaves, txs, proposer, vrf, timestamp, epoch, c.changes, c.added);
  }

  /** The pipeline as the engine runs it: from a clean pool, the block that was built
      is applied; and the pool is clean afterwards exactly when the root check let
      the clean-up happen or no mined transaction has spends. */
  lemma EnginePipeline(env: Env, l: Local, s: Store, p: Pool, order: seq<Hash32>, proposer: Hash32, vrf: Hash32,
          timestamp: nat, epoch: nat)
    requires Clean(env, s, p) && IsShuffle(p, order)
    requires var r := Select(env, p, order, MAX_BLOCK_TXS, MAX_BLOCK_GAS);
             Admits(env, l, BuildBlock(env, s, r, proposer, vrf, timestamp, epoch))
    ensures var r := Select(env, p, order, MAX_BLOCK_TXS, MAX_BLOCK_GAS);
            var b := BuildBlock(env, s, r, proposer, vrf, timestamp, epoch);
            var c := Contracts.Phase(l.runtime, s, r);
            var (after, q) := ExecuteBlock(env, l, s, p, b);
            && after.chainHeight == Some(ExpectedHeight(s))
            && (Clean(env, after, q) <==>
                  || ApplyBlock(env, s, b, c.changes, c.added).1 == Ok(b.header.stateRoot)
                  || forall tx :: tx in r ==> tx.spends == [])
  {
    hide Select, BuildBlock, ApplyBlock, Contracts.Phase, Admits, PoolInv, Spends, Describes;
    var r := Select(env, p, order, MAX_BLOCK_TXS, MAX_BLOCK_GAS);
    var b := BuildBlock(env, s, r, proposer, vrf, timestamp, epoch);
    var c := Contracts.Phase(l.runtime, s, r);
    Pipeline(env, s, p, order, proposer, vrf, timestamp, epoch, c.changes, c.added);
    var (after, applied) := ApplyBlock(env, s, b, c.changes, c.added);
    if applied != Ok(b.header.stateRoot) {
      SkippedCleanUp(env, s, p, order, after, b, c.changes, c.added);
    }
  }

  /** Without the clean-up, the pool is clean only if the block spent nothing. */
  lemma SkippedCleanUp(env: Env, s: Store, p: Pool, order: seq<Hash32>, after: Store, b: Block,
          changes: map<Bytes, Bytes>, added: seq<(Hash32, Bytes)>)
    requires Clean(env, s, p) && IsShuffle(p, order)
    requires b.transactions == Select(env, p, order, MAX_BLOCK_TXS, MAX_BLOCK_GAS)
    requires b.header.height == ExpectedHeight(s)
    requires ApplyBlock(env, s, b, changes, added).0 == after && ApplyBlock(env, s, b, changes, added).1.Ok?
    requires forall n :: n in s.nullifiers || n in Spends(b.transactions) ==> n in after.nullifiers
    ensures Clean(env, after, p) <==> forall tx :: tx in b.transactions ==> tx.spends == []
  {
    hide Select, ApplyBlock, PoolInv;
    var r := b.transactions;
    CleanKeyed(env, s, p);
    GreedyPacking(env, p, order, MAX_BLOCK_TXS, MAX_BLOCK_GAS);
    MoreSpentKeepsInv(env, s.nullifiers, after.nullifiers, p);
    if tx :| tx in r && tx.spends != [] {
      SpendsContain(r, tx, tx.spends[0]);
      assert p.txs[env.txId(tx)] == tx && !Usable(after, tx);
    } else {
      SpendsNothing(r);
      Accepted(env, s, b, changes, added);
      AppliedSelection(env, s, b, changes, added);
      assert forall n :: n in after.nullifiers ==> n in s.nullifiers;
      assert forall id :: id in p.txs ==> Usable(after, p.txs[id]);
    }
  }

  lemma {:induction false} SpendsNothing(txs: seq<Transaction>)
    requires forall tx :: tx in txs ==> tx.spends == []
    ensures Spends(txs) == []
  {
    if txs != [] {
      assert txs[0] in txs;
      SpendsNothing(txs[1..]);
    }
  }
}
