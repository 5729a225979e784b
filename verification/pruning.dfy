/** What a reader of the store finds after any run of applications and prunings. */
module Pruning {
  import opened Types
  import opened Ledger
  import opened Chain

  /** The headers and transactions a run is about, with no two hashing alike. */
  datatype Universe = Universe(headers: set<BlockHeader>, txs: set<Transaction>)

  ghost predicate CollisionFree(env: Env, u: Universe) {
    && (forall a, b :: a in u.headers && b in u.headers && env.headerHash(a) == env.headerHash(b) ==> a == b)
    && (forall a, b :: a in u.txs && b in u.txs && env.txId(a) == env.txId(b) ==> a == b)
  }

  predicate BlockIn(block: Block, u: Universe) {
    block.header in u.headers && forall tx :: tx in block.transactions ==> tx in u.txs
  }

  predicate OpsIn(ops: seq<Op>, u: Universe) {
    forall i :: 0 <= i < |ops| && ops[i].Apply? ==> BlockIn(ops[i].block, u)
  }

  /** A chain whose blocks have distinct headers, and where only a transaction
      without spends may stand in two blocks. */
  ghost predicate ChainIn(blocks: seq<Block>, u: Universe) {
    && (forall k :: 0 <= k < |blocks| ==> BlockIn(blocks[k], u) && blocks[k].header.height == k)
    && (forall i, j, tx :: 0 <= i < j < |blocks| && tx in blocks[i].transactions && tx in blocks[j].transactions ==>
          tx.spends == [])
  }

  predicate ServesBlock(env: Env, s: Store, block: Block, retained: bool) {
    GetBlock(s, env.headerHash(block.header)) == if retained then Some(block) else None
  }

  predicate ServesTx(env: Env, s: Store, tx: Transaction, retained: bool) {
    GetTransaction(s, env.txId(tx)) == if retained then Some(tx) else None
  }

  ghost predicate ServesHeights(env: Env, s: Store, blocks: seq<Block>, low: nat) {
    && (if |blocks| == 0 then low == 0 else low < |blocks|)
    && (forall k: nat :: k in s.heightHash <==> low <= k < |blocks|)
    && (forall k :: low <= k < |blocks| ==> s.heightHash[k] == env.headerHash(blocks[k].header))
  }

  ghost predicate ServesBlocks(env: Env, s: Store, blocks: seq<Block>, low: nat) {
    forall k :: 0 <= k < |blocks| ==> ServesBlock(env, s, blocks[k], k >= low)
  }

  ghost predicate ServesTxs(env: Env, s: Store, blocks: seq<Block>, low: nat) {
    forall k, tx :: 0 <= k < |blocks| && tx in blocks[k].transactions && tx.spends != []
        ==> ServesTx(env, s, tx, k >= low)
  }

  /** The store serves exactly the blocks from height `low` on, and of the
      transactions with spends exactly those in these blocks. */
  ghost predicate Serves(env: Env, s: Store, blocks: seq<Block>, low: nat) {
    ServesHeights(env, s, blocks, low) && ServesBlocks(env, s, blocks, low) && ServesTxs(env, s, blocks, low)
  }

  lemma {:induction false} PutTxsEffect(txId: Transaction -> Hash32, m: map<Hash32, Transaction>, txs: seq<Transaction>,
          id: Hash32)
    ensures var r := PutTxs(txId, m, txs);
            && (id !in TxIds(txId, txs) ==> (id in r <==> id in m) && (id in m ==> r[id] == m[id]))
            && (id in TxIds(txId, txs) ==>
                  id in r && exists i :: 0 <= i < |txs| && r[id] == txs[i] && txId(txs[i]) == id)
    decreases |txs|
  {
    if txs != [] {
      var rest := txs[1..];
      PutTxsEffect(txId, m[txId(txs[0]) := txs[0]], rest, id);
      assert forall i :: 0 < i < |txs| ==> txs[i] == rest[i - 1];
      if id in TxIds(txId, rest) {
        var i :| 0 <= i < |rest| && PutTxs(txId, m, txs)[id] == rest[i] && txId(rest[i]) == id;
        assert rest[i] == txs[i + 1];
      } else if id in TxIds(txId, txs) {
        assert id == txId(txs[0]);
      }
    }
  }

  /** In a collision-free universe, an id stands for one transaction. */
  lemma IdStandsFor(env: Env, u: Universe, tx: Transaction, txs: seq<Transaction>)
    requires CollisionFree(env, u) && tx in u.txs && forall t :: t in txs ==> t in u.txs
    ensures env.txId(tx) in TxIds(env.txId, txs) <==> tx in txs
  {
    if tx in txs {
      var i :| 0 <= i < |txs| && txs[i] == tx;
    }
  }

  lemma OtherHeader(env: Env, u: Universe, blocks: seq<Block>, i: nat, j: nat)
    requires CollisionFree(env, u) && ChainIn(blocks, u) && i < |blocks| && j < |blocks| && i != j
    ensures env.headerHash(blocks[i].header) != env.headerHash(blocks[j].header)
  {
    assert BlockIn(blocks[i], u) && BlockIn(blocks[j], u);
  }

  /** A transaction with spends stands in one block, and its id in no other. */
  lemma IdInOneBlock(env: Env, u: Universe, blocks: seq<Block>, i: nat, j: nat, tx: Transaction)
    requires CollisionFree(env, u) && ChainIn(blocks, u) && i < |blocks| && j < |blocks|
    requires tx in blocks[i].transactions && tx.spends != []
    ensures env.txId(tx) in TxIds(env.txId, blocks[j].transactions) <==> i == j
    ensures tx in u.txs && BlockIn(blocks[j], u)
  {
    assert BlockIn(blocks[i], u) && BlockIn(blocks[j], u);
    IdStandsFor(env, u, tx, blocks[j].transactions);
  }

  lemma ApplyServes(env: Env, u: Universe, s: Store, t: Store, blocks: seq<Block>, low: nat, block: Block)
    requires CollisionFree(env, u) && ChainIn(blocks + [block], u) && Serves(env, s, blocks, low)
    requires t.heightHash == s.heightHash[|blocks| := env.headerHash(block.header)]
    requires t.blocks == s.blocks[env.headerHash(block.header) := block]
    requires t.txs == PutTxs(env.txId, s.txs, block.transactions)
    ensures Serves(env, t, blocks + [block], low)
  {
    hide ChainIn, CollisionFree, PutTxs, TxIds;
    var n := |blocks|;
    var chain := blocks + [block];
    forall k | 0 <= k < |chain|
      ensures ServesBlock(env, t, chain[k], k >= low)
    {
      if k < n {
        assert ServesBlock(env, s, blocks[k], k >= low);
        OtherHeader(env, u, chain, k, n);
      }
    }
    forall k, tx | 0 <= k < |chain| && tx in chain[k].transactions && tx.spends != []
      ensures ServesTx(env, t, tx, k >= low)
    {
      PutTxsEffect(env.txId, s.txs, block.transactions, env.txId(tx));
      IdInOneBlock(env, u, chain, k, n, tx);
      if k < n {
        assert tx in blocks[k].transactions && ServesTx(env, s, tx, k >= low);
      } else {
        PutTxIs(env, u, s.txs, block.transactions, tx);
      }
    }
    assert ServesHeights(env, t, chain, low);
  }

  lemma PutTxIs(env: Env, u: Universe, m: map<Hash32, Transaction>, txs: seq<Transaction>, tx: Transaction)
    requires CollisionFree(env, u) && tx in txs && forall t :: t in txs ==> t in u.txs
    ensures var r := PutTxs(env.txId, m, txs); env.txId(tx) in r && r[env.txId(tx)] == tx
  {
    PutTxsEffect(env.txId, m, txs, env.txId(tx));
    IdStandsFor(env, u, tx, txs);
  }

  lemma PruneOneServes(env: Env, u: Universe, s: Store, blocks: seq<Block>, low: nat)
    requires CollisionFree(env, u) && ChainIn(blocks, u) && Serves(env, s, blocks, low) && low + 1 < |blocks|
    ensures low in s.heightHash
    ensures var t := DeleteBlock(env, s.(heightHash := s.heightHash - {low}), s.heightHash[low]);
            Serves(env, t, blocks, low + 1) && t.txs == s.txs - TxIds(env.txId, blocks[low].transactions)
  {
    hide ChainIn, CollisionFree, TxIds, BlockIn;
    var hash := s.heightHash[low];
    var t := DeleteBlock(env, s.(heightHash := s.heightHash - {low}), hash);
    assert ServesBlock(env, s, blocks[low], true);
    forall k | 0 <= k < |blocks|
      ensures ServesBlock(env, t, blocks[k], k >= low + 1)
    {
      assert ServesBlock(env, s, blocks[k], k >= low);
      if k != low {
        OtherHeader(env, u, blocks, k, low);
      }
    }
    forall k, tx | 0 <= k < |blocks| && tx in blocks[k].transactions && tx.spends != []
      ensures ServesTx(env, t, tx, k >= low + 1)
    {
      assert ServesTx(env, s, tx, k >= low);
      IdInOneBlock(env, u, blocks, k, low, tx);
    }
  }

  lemma {:induction false} PruneRangeServes(env: Env, u: Universe, s: Store, blocks: seq<Block>, low: nat, h: nat,
          end: nat)
    requires CollisionFree(env, u) && ChainIn(blocks, u) && Serves(env, s, blocks, low)
    requires h <= low && h <= end < |blocks|
    ensures var (t, n) := PruneRange(env, s, h, end);
            Serves(env, t, blocks, low + n) && low + n == if low < end then end else low
    decreases end - h
  {
    hide DeleteBlock, ChainIn, CollisionFree, ServesBlocks, ServesTxs;
    if h < end {
      if h == low {
        PruneOneServes(env, u, s, blocks, low);
        var t := DeleteBlock(env, s.(heightHash := s.heightHash - {low}), s.heightHash[low]);
        PruneRangeServes(env, u, t, blocks, low + 1, h + 1, end);
      } else {
        PruneRangeServes(env, u, s, blocks, low, h + 1, end);
      }
    }
  }

  ghost predicate HistoryIn(h: History, u: Universe) {
    forall k :: 0 <= k < |h.applied| ==> BlockIn(h.applied[k], u)
  }

  lemma SpentAt(h: History, k: nat, n: Hash32)
    requires SpentInv(h) && k < |h.applied| && n in Spends(h.applied[k].transactions)
    ensures n in h.store.nullifiers && h.store.nullifiers[n] == k
  {
  }

  lemma SpentInvChainIn(h: History, u: Universe)
    requires HeightsInv(h) && SpentInv(h) && HistoryIn(h, u)
    ensures ChainIn(h.applied, u)
  {
    hide SpentInv;
    forall i, j, tx | 0 <= i < j < |h.applied| && tx in h.applied[i].transactions && tx in h.applied[j].transactions
      ensures tx.spends == []
    {
      if tx.spends != [] {
        var n := tx.spends[0];
        SpendsContain(h.applied[i].transactions, tx, n);
        SpendsContain(h.applied[j].transactions, tx, n);
        SpentAt(h, i, n);
        SpentAt(h, j, n);
      }
    }
  }

  lemma StepServes(env: Env, u: Universe, h: History, op: Op)
    requires Inv(env, h) && CollisionFree(env, u) && HistoryIn(h, u) && (op.Apply? ==> BlockIn(op.block, u))
    requires Serves(env, h.store, h.applied, h.pruned)
    ensures var g := Step(env, h, op); HistoryIn(g, u) && Serves(env, g.store, g.applied, g.pruned)
  {
    hide SpentInv, AnchorsInv, Serves, Step, CollisionFree, ApplyBlock, PruneHistory, PruneRange;
    var g := Step(env, h, op);
    StepKeepsInv(env, h, op);
    match op
    case Apply(block, changes, added) =>
      if block.header.height == ExpectedHeight(h.store) {
        ApplyServesStep(env, u, h, block, changes, added);
      } else {
        RefusedHeight(env, h, block, changes, added);
      }
    case Prune(keepLast) =>
      PruneServesStep(env, u, h, keepLast);
  }

  lemma ApplyServesStep(env: Env, u: Universe, h: History, block: Block, changes: map<Bytes, Bytes>,
          added: seq<(Hash32, Bytes)>)
    requires Inv(env, h) && CollisionFree(env, u) && HistoryIn(h, u) && BlockIn(block, u)
    requires block.header.height == ExpectedHeight(h.store) && Serves(env, h.store, h.applied, h.pruned)
    ensures var g := Step(env, h, Apply(block, changes, added));
            HistoryIn(g, u) && Serves(env, g.store, g.applied, g.pruned)
  {
    hide SpentInv, AnchorsInv, LeavesInv, Step, CollisionFree, Seal, Written, Marks, Distinct;
    var g := Step(env, h, Apply(block, changes, added));
    StepKeepsInv(env, h, Apply(block, changes, added));
    var _, t := ApplyEffect(env, h, block, changes, added);
    SealKeeps(env, t, block, changes, added);
    if g.applied == h.applied + [block] {
      hide Serves;
      assert HistoryIn(g, u);
      SpentInvChainIn(g, u);
      ApplyServes(env, u, h.store, g.store, h.applied, h.pruned, block);
    }
  }

  lemma PruneServesStep(env: Env, u: Universe, h: History, keepLast: nat)
    requires Inv(env, h) && CollisionFree(env, u) && HistoryIn(h, u) && Serves(env, h.store, h.applied, h.pruned)
    ensures var g := Step(env, h, Prune(keepLast)); HistoryIn(g, u) && Serves(env, g.store, g.applied, g.pruned)
  {
    hide SpentInv, AnchorsInv, LeavesInv, CollisionFree, PruneRange, ChainIn, Serves;
    SpentInvChainIn(h, u);
    if ChainHeight(h.store) > keepLast {
      PruneRangeServes(env, u, h.store, h.applied, h.pruned, 0, ChainHeight(h.store) - keepLast);
    }
  }

  lemma {:induction false} RunServes(env: Env, u: Universe, h: History, ops: seq<Op>)
    requires Inv(env, h) && CollisionFree(env, u) && HistoryIn(h, u) && OpsIn(ops, u)
    requires Serves(env, h.store, h.applied, h.pruned)
    ensures var g := Run(env, h, ops);
            Inv(env, g) && HistoryIn(g, u) && Serves(env, g.store, g.applied, g.pruned)
    decreases |ops|
  {
    hide Inv, Step, Serves, CollisionFree, HistoryIn;
    if ops != [] {
      StepKeepsInv(env, h, ops[0]);
      StepServes(env, u, h, ops[0]);
      RunServes(env, u, Step(env, h, ops[0]), ops[1..]);
    }
  }

  /** Pruning and index: after any run, with any retention asked for at any time,
      reading by height returns the block applied at that height for exactly the
      heights from the number of pruned blocks on, and a transaction with spends is
      retrievable by id exactly while its block is. */
  lemma ReadsAfterAnyRun(env: Env, u: Universe, ops: seq<Op>, height: nat)
    requires CollisionFree(env, u) && OpsIn(ops, u)
    ensures var h := Run(env, GENESIS, ops);
            && (|h.applied| > 0 ==> h.pruned < |h.applied|)
            && GetBlockByHeight(h.store, height)
               == (if h.pruned <= height < |h.applied| then Some(h.applied[height]) else None)
            && forall tx :: height < |h.applied| && tx in h.applied[height].transactions && tx.spends != [] ==>
                 GetTransaction(h.store, env.txId(tx)) == if height >= h.pruned then Some(tx) else None
  {
    hide CollisionFree, Inv;
    GenesisInv(env);
    RunServes(env, u, GENESIS, ops);
    var h := Run(env, GENESIS, ops);
    if height < |h.applied| {
      assert ServesBlock(env, h.store, h.applied[height], height >= h.pruned);
      forall tx | tx in h.applied[height].transactions && tx.spends != []
        ensures GetTransaction(h.store, env.txId(tx)) == if height >= h.pruned then Some(tx) else None
      {
        assert ServesTx(env, h.store, tx, height >= h.pruned);
      }
    }
  }

  /** How many of the first heights are to go, from the operations and the number of
      applied blocks at each pruning: as many as leave `keepLast` blocks below the tip. */
  function Mark(env: Env, h: History, ops: seq<Op>, mark: nat): nat
    decreases |ops|
  {
    if ops == [] then mark
    else
      var surplus := if ops[0].Prune? then |h.applied| - 1 - ops[0].keepLast else 0;
      Mark(env, Step(env, h, ops[0]), ops[1..], if surplus > mark then surplus else mark)
  }

  lemma PruneMoves(env: Env, u: Universe, h: History, keepLast: nat)
    requires Inv(env, h) && CollisionFree(env, u) && HistoryIn(h, u) && Serves(env, h.store, h.applied, h.pruned)
    ensures var surplus := |h.applied| - 1 - keepLast;
            Step(env, h, Prune(keepLast)).pruned == if surplus > h.pruned then surplus else h.pruned
  {
    hide SpentInv, AnchorsInv, LeavesInv, CollisionFree, PruneRange, ChainIn, ServesBlocks, ServesTxs;
    SpentInvChainIn(h, u);
    if ChainHeight(h.store) > keepLast {
      PruneRangeServes(env, u, h.store, h.applied, h.pruned, 0, ChainHeight(h.store) - keepLast);
    }
  }

  lemma {:induction false} RunMark(env: Env, u: Universe, h: History, ops: seq<Op>)
    requires Inv(env, h) && CollisionFree(env, u) && HistoryIn(h, u) && OpsIn(ops, u)
    requires Serves(env, h.store, h.applied, h.pruned)
    ensures Run(env, h, ops).pruned == Mark(env, h, ops, h.pruned)
    decreases |ops|
  {
    hide Inv, Serves, CollisionFree, HistoryIn, ApplyBlock, PruneHistory;
    if ops != [] {
      StepKeepsInv(env, h, ops[0]);
      StepServes(env, u, h, ops[0]);
      if ops[0].Prune? {
        PruneMoves(env, u, h, ops[0].keepLast);
      }
      RunMark(env, u, Step(env, h, ops[0]), ops[1..]);
    }
  }

  /** What is kept: after any run the readable heights start at the highest of what the
      prunings asked for, each at its own chain length; a pruning that asks for more than
      there is moves nothing. */
  lemma ReadableFrom(env: Env, u: Universe, ops: seq<Op>, height: nat)
    requires CollisionFree(env, u) && OpsIn(ops, u)
    ensures var h := Run(env, GENESIS, ops);
            GetBlockByHeight(h.store, height)
            == if Mark(env, GENESIS, ops, 0) <= height < |h.applied| then Some(h.applied[height]) else None
  {
    assert Serves(env, GENESIS.store, [], 0);
    hide CollisionFree, Inv, Run, Mark, Serves;
    GenesisInv(env);
    RunMark(env, u, GENESIS, ops);
    ReadsAfterAnyRun(env, u, ops, height);
  }

  lemma {:induction false} PruneRangeForgets(env: Env, u: Universe, s: Store, blocks: seq<Block>, low: nat, h: nat,
          end: nat, id: Hash32)
    requires CollisionFree(env, u) && ChainIn(blocks, u) && Serves(env, s, blocks, low)
    requires h <= low && h <= end < |blocks|
    ensures id in PruneRange(env, s, h, end).0.txs <==>
              id in s.txs && forall k :: low <= k < end ==> id !in TxIds(env.txId, blocks[k].transactions)
    decreases end - h
  {
    hide ChainIn, CollisionFree, ServesTxs, ServesBlocks, TxIds, DeleteBlock;
    if h < end {
      if h == low {
        PruneOneServes(env, u, s, blocks, low);
        var t := DeleteBlock(env, s.(heightHash := s.heightHash - {low}), s.heightHash[low]);
        PruneRangeForgets(env, u, t, blocks, low + 1, h + 1, end, id);
      } else {
        PruneRangeForgets(env, u, s, blocks, low, h + 1, end, id);
      }
    }
  }

  lemma PruneStepForgets(env: Env, u: Universe, h: History, keepLast: nat, id: Hash32)
    requires Inv(env, h) && CollisionFree(env, u) && HistoryIn(h, u) && Serves(env, h.store, h.applied, h.pruned)
    ensures var g := Step(env, h, Prune(keepLast));
            && h.pruned <= g.pruned <= |h.applied| && g.applied == h.applied
            && (id in g.store.txs <==>
                  id in h.store.txs && forall k :: h.pruned <= k < g.pruned ==> !HasTx(env, h.applied[k], id))
  {
    hide CollisionFree, SpentInv, AnchorsInv, LeavesInv, PruneRange, ChainIn, TxIds;
    SpentInvChainIn(h, u);
    if ChainHeight(h.store) > keepLast {
      var end := ChainHeight(h.store) - keepLast;
      PruneRangeServes(env, u, h.store, h.applied, h.pruned, 0, end);
      PruneRangeForgets(env, u, h.store, h.applied, h.pruned, 0, end, id);
    }
  }

  /** The block has a transaction with this id. */
  predicate HasTx(env: Env, block: Block, id: Hash32) {
    id in TxIds(env.txId, block.transactions)
  }

  /** Exactly what one pruning call forgets, spends or not: the ids that occur in
      the blocks it removes. */
  lemma PruneForgets(env: Env, u: Universe, ops: seq<Op>, keepLast: nat, id: Hash32)
    requires CollisionFree(env, u) && OpsIn(ops, u)
    ensures var h := Run(env, GENESIS, ops);
            var g := Step(env, h, Prune(keepLast));
            && h.pruned <= g.pruned <= |h.applied|
            && (GetTransaction(g.store, id).Some? <==>
                  && GetTransaction(h.store, id).Some?
                  && forall k :: h.pruned <= k < g.pruned ==> !HasTx(env, h.applied[k], id))
  {
    assert Serves(env, GENESIS.store, [], 0);
    hide CollisionFree, Inv, Run, Step, Serves, HasTx;
    GenesisInv(env);
    RunServes(env, u, GENESIS, ops);
    PruneStepForgets(env, u, Run(env, GENESIS, ops), keepLast, id);
  }

  /** For each block that the operations apply, how many blocks were pruned by then. */
  function PrunedBefore(env: Env, h: History, ops: seq<Op>): seq<nat>
    decreases |ops|
  {
    if ops == [] then []
    else
      var g := Step(env, h, ops[0]);
      (if g.applied != h.applied then [h.pruned] else []) + PrunedBefore(env, g, ops[1..])
  }

  /** Some block holds the id, and none that was pruned after it was applied does. */
  ghost predicate Retained(env: Env, h: History, before: seq<nat>, id: Hash32) {
    && |before| == |h.applied| && h.pruned <= |h.applied|
    && exists k :: 0 <= k < |before| && HasTx(env, h.applied[k], id)
                   && forall j :: before[k] <= j < h.pruned ==> !HasTx(env, h.applied[j], id)
  }

  ghost predicate RetainedInv(env: Env, h: History, before: seq<nat>, id: Hash32) {
    && |before| == |h.applied| && h.pruned <= |h.applied|
    && (forall k :: 0 <= k < |before| ==> before[k] <= h.pruned)
    && (id in h.store.txs <==> Retained(env, h, before, id))
  }

  lemma ApplyRetains(env: Env, u: Universe, h: History, before: seq<nat>, block: Block, changes: map<Bytes, Bytes>,
          added: seq<(Hash32, Bytes)>, id: Hash32)
    requires Inv(env, h) && RetainedInv(env, h, before, id)
    ensures var g := Step(env, h, Apply(block, changes, added));
            RetainedInv(env, g, before + (if g.applied != h.applied then [h.pruned] else []), id)
  {
    hide SpentInv, AnchorsInv, LeavesInv, Step, Seal, Written, Marks, Distinct, HasTx;
    var g := Step(env, h, Apply(block, changes, added));
    if block.header.height == ExpectedHeight(h.store) {
      var _, t := ApplyEffect(env, h, block, changes, added);
      SealKeeps(env, t, block, changes, added);
      if g.applied == h.applied + [block] {
        PutHasTx(env, h.store.txs, block, id);
        MoreRetained(env, h, g, before, block, id);
      } else {
        assert before + [] == before;
      }
    } else {
      RefusedHeight(env, h, block, changes, added);
      assert before + [] == before;
    }
  }

  lemma PutHasTx(env: Env, m: map<Hash32, Transaction>, block: Block, id: Hash32)
    ensures id in PutTxs(env.txId, m, block.transactions) <==> id in m || HasTx(env, block, id)
  {
    PutTxsEffect(env.txId, m, block.transactions, id);
  }

  lemma MoreRetained(env: Env, h: History, g: History, before: seq<nat>, block: Block, id: Hash32)
    requires |before| == |h.applied| && h.pruned <= |h.applied|
    requires g.applied == h.applied + [block] && g.pruned == h.pruned
    ensures Retained(env, g, before + [h.pruned], id) <==> Retained(env, h, before, id) || HasTx(env, block, id)
  {
    hide HasTx;
    var more := before + [h.pruned];
    assert forall k :: 0 <= k < |before| ==> more[k] == before[k] && g.applied[k] == h.applied[k];
    if HasTx(env, block, id) {
      assert g.applied[|before|] == block && more[|before|] == h.pruned;
    }
    if Retained(env, h, before, id) {
      var k :| 0 <= k < |before| && HasTx(env, h.applied[k], id)
               && forall j :: before[k] <= j < h.pruned ==> !HasTx(env, h.applied[j], id);
      assert HasTx(env, g.applied[k], id) && more[k] == before[k];
    }
  }

  lemma PruneRetains(env: Env, u: Universe, h: History, before: seq<nat>, keepLast: nat, id: Hash32)
    requires Inv(env, h) && CollisionFree(env, u) && HistoryIn(h, u) && Serves(env, h.store, h.applied, h.pruned)
    requires RetainedInv(env, h, before, id)
    ensures RetainedInv(env, Step(env, h, Prune(keepLast)), before, id)
  {
    hide Inv, CollisionFree, HistoryIn, Serves, Step, HasTx;
    PruneStepForgets(env, u, h, keepLast, id);
    var g := Step(env, h, Prune(keepLast));
    if id in g.store.txs {
      var k :| 0 <= k < |before| && HasTx(env, h.applied[k], id)
               && forall j :: before[k] <= j < h.pruned ==> !HasTx(env, h.applied[j], id);
      assert forall j :: before[k] <= j < g.pruned ==> !HasTx(env, g.applied[j], id);
    }
  }

  lemma {:induction false} RunRetains(env: Env, u: Universe, h: History, before: seq<nat>, ops: seq<Op>, id: Hash32)
    requires Inv(env, h) && CollisionFree(env, u) && HistoryIn(h, u) && OpsIn(ops, u)
    requires Serves(env, h.store, h.applied, h.pruned) && RetainedInv(env, h, before, id)
    ensures RetainedInv(env, Run(env, h, ops), before + PrunedBefore(env, h, ops), id)
    decreases |ops|
  {
    hide Inv, Step, Serves, CollisionFree, HistoryIn, RetainedInv;
    if ops == [] {
      assert before + [] == before;
    } else {
      var g := Step(env, h, ops[0]);
      var now := if g.applied != h.applied then [h.pruned] else [];
      StepKeepsInv(env, h, ops[0]);
      StepServes(env, u, h, ops[0]);
      match ops[0] {
        case Apply(block, changes, added) => ApplyRetains(env, u, h, before, block, changes, added, id);
        case Prune(keepLast) =>
          PruneRetains(env, u, h, before, keepLast, id);
          PruneStepForgets(env, u, h, keepLast, id);
          assert before + [] == before;
      }
      RunRetains(env, u, g, before + now, ops[1..], id);
      assert before + (now + PrunedBefore(env, g, ops[1..])) == (before + now) + PrunedBefore(env, g, ops[1..]);
    }
  }

  /** Retrieval over whole runs, spends or not: an id is found exactly when some applied
      block holds it and no block that was pruned after that one was applied does. */
  lemma RetrievedIff(env: Env, u: Universe, ops: seq<Op>, id: Hash32)
    requires CollisionFree(env, u) && OpsIn(ops, u)
    ensures var h := Run(env, GENESIS, ops);
            GetTransaction(h.store, id).Some? <==> Retained(env, h, PrunedBefore(env, GENESIS, ops), id)
  {
    assert Serves(env, GENESIS.store, [], 0);
    hide Inv, Serves, CollisionFree, Run, Retained;
    GenesisInv(env);
    NothingRetained(env, id);
    RunRetains(env, u, GENESIS, [], ops, id);
    assert [] + PrunedBefore(env, GENESIS, ops) == PrunedBefore(env, GENESIS, ops);
  }

  lemma NothingRetained(env: Env, id: Hash32)
    ensures RetainedInv(env, GENESIS, [], id)
  {
  }

  /** Why the spends matter: a transaction without spends may stand in two blocks,
      and pruning the first block makes it unretrievable although the second block
      is retained. */
  lemma SpendlessTxIsLost(env: Env, tx: Transaction, first: Block, second: Block)
    requires tx.spends == [] && tx.outputs == []
    requires first.header.height == 0 && second.header.height == 1
    requires first.transactions == [tx] && second.transactions == [tx]
    requires env.headerHash(first.header) != env.headerHash(second.header)
    ensures var h := Run(env, GENESIS, [Apply(first, map[], []), Apply(second, map[], []), Prune(0)]);
            && h.applied == [first, second] && h.pruned == 1
            && GetBlockByHeight(h.store, 1) == Some(second)
            && GetTransaction(h.store, env.txId(tx)) == None
  {
    var h1 := Step(env, GENESIS, Apply(first, map[], []));
    var h2 := Step(env, h1, Apply(second, map[], []));
    var h3 := Step(env, h2, Prune(0));
    assert ApplyTxs(env.hashPair, EMPTY_STORE, [tx], 0) == (EMPTY_STORE, true);
    assert h1.applied == [first] && h1.store.chainHeight == Some(0);
    assert ApplyTxs(env.hashPair, h1.store, [tx], 1) == (h1.store, true);
    assert h2.applied == [first, second] && h2.store.chainHeight == Some(1);
    assert h2.store.heightHash == map[0 := env.headerHash(first.header), 1 := env.headerHash(second.header)];
    var t := DeleteBlock(env, h2.store.(heightHash := h2.store.heightHash - {0}), env.headerHash(first.header));
    assert h2.store.blocks[env.headerHash(first.header)] == first;
    assert first.transactions[0] == tx && env.txId(tx) in TxIds(env.txId, first.transactions);
    assert PruneRange(env, h2.store, 0, 1) == (t, 1);
    assert h3.store == t;
    var ops := [Apply(first, map[], []), Apply(second, map[], []), Prune(0)];
    assert ops[1..] == [Apply(second, map[], []), Prune(0)];
    assert ops[1..][1..] == [Prune(0)];
    assert Run(env, h2, [Prune(0)]) == h3;
  }
}
