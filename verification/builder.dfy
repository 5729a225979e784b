/** Building a block from the pool, applying it, and cleaning the pool up. */
module Builder {
  import opened Types
  import opened Merkle
  import opened Ledger
  import opened Chain
  import opened Mempool
  import opened Pruning

  const MAX_BLOCK_TXS: nat := 10_000

  function Ids(env: Env, txs: seq<Transaction>): seq<Hash32> {
    seq(|txs|, i requires 0 <= i < |txs| => env.txId(txs[i]))
  }

  function TxRoot(env: Env, txs: seq<Transaction>): Hash32 {
    if txs == [] then ZERO else env.idsHash(Ids(env, txs))
  }

  /** The transactions that enter the block, and their gas: those over the gas
      limit of a transaction are skipped, and the first that no longer fits ends it. */
  function Truncate(txs: seq<Transaction>, gas: nat): (seq<Transaction>, nat)
    decreases |txs|
  {
    if txs == [] then ([], gas)
    else if txs[0].gasLimit > MAX_TX_GAS then Truncate(txs[1..], gas)
    else if gas + txs[0].gasLimit > MAX_BLOCK_GAS then ([], gas)
    else
      var (kept, used) := Truncate(txs[1..], gas + txs[0].gasLimit);
      ([txs[0]] + kept, used)
  }

  function ParentHash(env: Env, s: Store): Hash32 {
    if s.chainHeight.None? then ZERO
    else
      var parent := GetBlockByHeight(s, ChainHeight(s));
      if parent.Some? then env.headerHash(parent.value.header) else ZERO
  }

  /** The roots in the header are taken over the transactions as given, before
      truncation, and the state root is the root before the block. */
  function BuildBlock(env: Env, s: Store, txs: seq<Transaction>, proposer: Hash32, vrf: Hash32, timestamp: nat,
          epoch: nat): Block {
    var (kept, used) := Truncate(txs, 0);
    var header := BlockHeader(
      ExpectedHeight(s), ParentHash(env, s), Root(env.hashPair, s.tree), TxRoot(env, txs),
      env.nullifiersHash(Spends(txs)), timestamp, epoch, vrf, proposer, DEVNET_CHAIN_ID, used, MAX_BLOCK_GAS);
    Block(header, kept, [])
  }

  /** The block stays within its gas limit and reports the gas of its own body. */
  lemma {:induction false} TruncateGas(txs: seq<Transaction>, gas: nat)
    requires gas <= MAX_BLOCK_GAS
    ensures var (kept, used) := Truncate(txs, gas);
            && used == gas + Gas(kept) <= MAX_BLOCK_GAS
            && forall tx :: tx in kept ==> tx in txs && tx.gasLimit <= MAX_TX_GAS
    decreases |txs|
  {
    if txs != [] {
      assert txs == [txs[0]] + txs[1..];
      if txs[0].gasLimit > MAX_TX_GAS {
        TruncateGas(txs[1..], gas);
      } else if gas + txs[0].gasLimit <= MAX_BLOCK_GAS {
        TruncateGas(txs[1..], gas + txs[0].gasLimit);
        var kept := Truncate(txs[1..], gas + txs[0].gasLimit).0;
        assert ([txs[0]] + kept)[1..] == kept;
      }
    }
  }

  lemma {:induction false} TruncateShortens(txs: seq<Transaction>, gas: nat)
    ensures |Truncate(txs, gas).0| <= |txs|
    decreases |txs|
  {
    if txs != [] {
      TruncateShortens(txs[1..], gas);
      TruncateShortens(txs[1..], gas + txs[0].gasLimit);
    }
  }

  /** Nothing is dropped exactly when every transaction is within its limit and all
      of them together are within the block's. */
  lemma {:induction false} TruncateKeepsAllIff(txs: seq<Transaction>, gas: nat)
    requires gas <= MAX_BLOCK_GAS
    ensures Truncate(txs, gas).0 == txs <==>
              (forall tx :: tx in txs ==> tx.gasLimit <= MAX_TX_GAS) && gas + Gas(txs) <= MAX_BLOCK_GAS
    decreases |txs|
  {
    if txs != [] {
      var rest := txs[1..];
      assert txs == [txs[0]] + rest;
      if txs[0].gasLimit > MAX_TX_GAS {
        TruncateShortens(rest, gas);
        assert txs[0] in txs;
      } else if gas + txs[0].gasLimit <= MAX_BLOCK_GAS {
        TruncateKeepsAllIff(rest, gas + txs[0].gasLimit);
        var kept := Truncate(rest, gas + txs[0].gasLimit).0;
        assert ([txs[0]] + kept)[1..] == kept;
      }
    }
  }

  /** The transactions within the gas limit of one. */
  function Within(txs: seq<Transaction>): seq<Transaction> {
    if txs == [] then []
    else (if txs[0].gasLimit <= 10_000_000 then [txs[0]] else []) + Within(txs[1..])
  }

  /** The body is cut off at one place: it has all transactions within the limit of one
      from before the cut, and the one at the cut, if any, no longer fits into the block. */
  lemma {:induction false} TruncateCuts(txs: seq<Transaction>, gas: nat) returns (cut: nat)
    requires gas <= 100_000_000
    ensures cut <= |txs|
    ensures var kept := Truncate(txs, gas).0;
            && kept == Within(txs[..cut])
            && (cut < |txs| ==> txs[cut].gasLimit <= 10_000_000 && gas + Gas(kept) + txs[cut].gasLimit > 100_000_000)
    decreases |txs|
  {
    if txs == [] {
      cut := 0;
    } else if txs[0].gasLimit > MAX_TX_GAS {
      cut := TruncateCuts(txs[1..], gas);
      assert txs[..cut + 1][1..] == txs[1..][..cut] && txs[cut + 1..] == txs[1..][cut..];
      assert Within(txs[..cut + 1]) == Within(txs[1..][..cut]);
      cut := cut + 1;
    } else if gas + txs[0].gasLimit > MAX_BLOCK_GAS {
      cut := 0;
    } else {
      cut := TruncateCuts(txs[1..], gas + txs[0].gasLimit);
      assert txs[..cut + 1][1..] == txs[1..][..cut];
      var kept := Truncate(txs[1..], gas + txs[0].gasLimit).0;
      assert ([txs[0]] + kept)[1..] == kept;
      cut := cut + 1;
    }
  }

  /** Without a collision among the ids and the two lists, the root in the header stands
      for one list of transactions. */
  lemma TxRootBinds(env: Env, a: seq<Transaction>, b: seq<Transaction>)
    requires forall x, y :: x in a && y in b && env.txId(x) == env.txId(y) ==> x == y
    requires env.idsHash(Ids(env, a)) == env.idsHash(Ids(env, b)) ==> Ids(env, a) == Ids(env, b)
    requires env.idsHash(Ids(env, a)) != ZERO && env.idsHash(Ids(env, b)) != ZERO
    ensures TxRoot(env, a) == TxRoot(env, b) <==> a == b
  {
    if TxRoot(env, a) == TxRoot(env, b) {
      assert |a| == |Ids(env, a)| && |b| == |Ids(env, b)|;
      forall i | 0 <= i < |a| && |a| == |b|
        ensures a[i] == b[i]
      {
        assert Ids(env, a)[i] == env.txId(a[i]) && Ids(env, b)[i] == env.txId(b[i]);
      }
    }
  }

  /** Who built the block, when, and with what randomness stands in the header, beside the
      root of the ledger before the block; the block carries no aggregate signature. */
  lemma HeaderCarries(env: Env, s: Store, txs: seq<Transaction>, proposer: Hash32, vrf: Hash32, timestamp: nat,
          epoch: nat)
    ensures var b := BuildBlock(env, s, txs, proposer, vrf, timestamp, epoch);
            && b.header.proposer == proposer && b.header.vrfOutput == vrf
            && b.header.timestamp == timestamp && b.header.epoch == epoch
            && b.header.stateRoot == Root(env.hashPair, s.tree) && b.aggregateSig == []
            && b.header.chainId == 42 && b.header.gasLimit == 100_000_000
            && b.header.txRoot == TxRoot(env, txs) && b.header.nullifierRoot == env.nullifiersHash(Spends(txs))
  {
    hide Truncate, Root;
  }

  // ---------------------------------------------------------------- pipeline

  /** The transaction lists distinct, unspent nullifiers: it could be applied alone. */
  ghost predicate Usable(s: Store, tx: Transaction) {
    Distinct(tx.spends) && Disjoint(tx.spends, s.nullifiers)
  }

  /** The pool is consistent and every transaction in it is usable. */
  ghost predicate Clean(env: Env, s: Store, p: Pool) {
    PoolInv(env, s.nullifiers, p) && forall id :: id in p.txs ==> Usable(s, p.txs[id])
  }

  /** The header describes exactly the body. */
  predicate Describes(env: Env, b: Block) {
    && b.header.txRoot == TxRoot(env, b.transactions)
    && b.header.nullifierRoot == env.nullifiersHash(Spends(b.transactions))
    && b.header.gasUsed == Gas(b.transactions) <= MAX_BLOCK_GAS
  }

  /** Distinct pool transactions spend distinct, unspent nullifiers together exactly
      when each of them does so alone. */
  lemma {:induction false} SelectionSpendsIff(env: Env, s: Store, p: Pool, r: seq<Transaction>)
    requires PoolInv(env, s.nullifiers, p) && Distinct(r)
    requires forall tx :: tx in r ==> env.txId(tx) in p.txs && p.txs[env.txId(tx)] == tx
    ensures Distinct(Spends(r)) && Disjoint(Spends(r), s.nullifiers) <==> forall tx :: tx in r ==> Usable(s, tx)
    ensures forall n :: n in Spends(r) ==> exists tx :: tx in r && n in tx.spends
  {
    if r != [] {
      hide Reserved, Owned;
      var rest := r[1..];
      assert r == [r[0]] + rest;
      SelectionSpendsIff(env, s, p, rest);
      assert r[0] in r;
      forall n | n in r[0].spends
        ensures n !in Spends(rest)
      {
      }
      hide NoSharing, Keyed;
      DistinctConcat(r[0].spends, Spends(rest));
      assert Disjoint(Spends(r), s.nullifiers)
        <==> Disjoint(r[0].spends, s.nullifiers) && Disjoint(Spends(rest), s.nullifiers);
    }
  }

  lemma SelectionIsKept(env: Env, p: Pool, order: seq<Hash32>)
    requires Keyed(env, p) && IsShuffle(p, order)
    ensures var r := Select(env, p, order, MAX_BLOCK_TXS, MAX_BLOCK_GAS);
            Truncate(r, 0) == (r, Gas(r)) && Gas(r) <= MAX_BLOCK_GAS
  {
    hide Select, Truncate;
    var r := Select(env, p, order, MAX_BLOCK_TXS, MAX_BLOCK_GAS);
    GreedyPacking(env, p, order, MAX_BLOCK_TXS, MAX_BLOCK_GAS);
    TruncateKeepsAllIff(r, 0);
    TruncateGas(r, 0);
  }

  /** The block built from any consistent pool drops nothing, its header describes
      its body, and the unchanged store accepts it exactly when every selected
      transaction is usable. */
  lemma BuiltAcceptedIff(env: Env, s: Store, p: Pool, order: seq<Hash32>, proposer: Hash32, vrf: Hash32, timestamp: nat,
          epoch: nat, changes: map<Bytes, Bytes>, added: seq<(Hash32, Bytes)>)
    requires PoolInv(env, s.nullifiers, p) && IsShuffle(p, order)
    ensures var r := Select(env, p, order, MAX_BLOCK_TXS, MAX_BLOCK_GAS);
            var b := BuildBlock(env, s, r, proposer, vrf, timestamp, epoch);
            && b.transactions == r && Describes(env, b) && b.header.height == ExpectedHeight(s)
            && (ApplyBlock(env, s, b, changes, added).1.Ok? <==> forall tx :: tx in r ==> Usable(s, tx))
  {
    hide Select, Truncate, BuildBlock, ApplyBlock, NoSharing, Reserved, Owned, Spends, Describes, Usable;
    var r := Select(env, p, order, MAX_BLOCK_TXS, MAX_BLOCK_GAS);
    var b := BuildBlock(env, s, r, proposer, vrf, timestamp, epoch);
    SelectionIsKept(env, p, order);
    Built(env, s, r, proposer, vrf, timestamp, epoch);
    GreedyPacking(env, p, order, MAX_BLOCK_TXS, MAX_BLOCK_GAS);
    SelectionSpendsIff(env, s, p, r);
    Accepted(env, s, b, changes, added);
  }

  /** A selected transaction that is not usable spoils the block: built on this store or
      on any later one, it is refused, since what is spent stays spent. */
  lemma OffenderBlocks(env: Env, s: Store, later: Store, p: Pool, order: seq<Hash32>, tx: Transaction, proposer: Hash32,
          vrf: Hash32, timestamp: nat, epoch: nat, changes: map<Bytes, Bytes>, added: seq<(Hash32, Bytes)>)
    requires PoolInv(env, s.nullifiers, p) && IsShuffle(p, order)
    requires forall n :: n in s.nullifiers ==> n in later.nullifiers
    requires tx in Select(env, p, order, MAX_BLOCK_TXS, MAX_BLOCK_GAS) && !Usable(s, tx)
    ensures var r := Select(env, p, order, MAX_BLOCK_TXS, MAX_BLOCK_GAS);
            var b := BuildBlock(env, later, r, proposer, vrf, timestamp, epoch);
            ApplyBlock(env, later, b, changes, added).1.Err?
  {
    hide Select, BuildBlock, ApplyBlock, PoolInv;
    MoreSpentKeepsInv(env, s.nullifiers, later.nullifiers, p);
    BuiltAcceptedIff(env, later, p, order, proposer, vrf, timestamp, epoch, changes, added);
    assert !Usable(later, tx);
  }

  lemma {:induction false} DistinctPart(txs: seq<Transaction>, tx: Transaction)
    requires tx in txs && Distinct(Spends(txs))
    ensures Distinct(tx.spends)
    decreases |txs|
  {
    DistinctConcat(txs[0].spends, Spends(txs[1..]));
    if tx != txs[0] {
      DistinctPart(txs[1..], tx);
    }
  }

  /** An applied block has usable transactions only, so that none of them is this one. */
  lemma MinedIsUsable(env: Env, s: Sys, block: Block, changes: map<Bytes, Bytes>, added: seq<(Hash32, Bytes)>,
          txs: set<Transaction>, id: Hash32)
    requires SysInv(env, s, txs) && IdsUnique(env, txs) && forall tx :: tx in block.transactions ==> tx in txs
    requires id in s.pool.txs && !Usable(s.history.store, s.pool.txs[id])
    requires ApplyBlock(env, s.history.store, block, changes, added).1.Ok?
    ensures id !in TxIds(env.txId, block.transactions)
  {
    hide ApplyBlock, Inv, Spends;
    Accepted(env, s.history.store, block, changes, added);
    if id in TxIds(env.txId, block.transactions) {
      var i :| 0 <= i < |block.transactions| && env.txId(block.transactions[i]) == id;
      var tx := block.transactions[i];
      assert tx == s.pool.txs[id] by {
        assert tx in txs && s.pool.txs[id] in txs && env.txId(s.pool.txs[id]) == id;
      }
      DistinctPart(block.transactions, tx);
      forall n | n in tx.spends
        ensures n in Spends(block.transactions)
      {
        SpendsContain(block.transactions, tx, n);
      }
      assert false;
    }
  }

  lemma ActKeepsOffender(env: Env, s: Sys, a: PoolAction, txs: set<Transaction>, id: Hash32)
    requires SysInv(env, s, txs) && ActionIn(a, txs) && IdsUnique(env, txs)
    requires id in s.pool.txs && !Usable(s.history.store, s.pool.txs[id])
    ensures var t := Act(env, s, a);
            id in t.pool.txs && t.pool.txs[id] == s.pool.txs[id] && !Usable(t.history.store, t.pool.txs[id])
  {
    hide Inv, PoolInv, ApplyBlock, RemoveMined, IdsUnique;
    match a
    case Submit(tx) =>
      InsertOutcome(env, s.history.store.nullifiers, s.pool, tx);
    case Ledger(op, cleanUp) =>
      StepSpent(env, s.history, op);
      if op.Apply? {
        if ApplyBlock(env, s.history.store, op.block, op.changes, op.added).1.Ok? {
          MinedIsUsable(env, s, op.block, op.changes, op.added, txs, id);
        }
        RemoveMinedEffect(env, s.pool, op.block.transactions);
      }
  }

  predicate ActionsIn(actions: seq<PoolAction>, txs: set<Transaction>) {
    forall i :: 0 <= i < |actions| ==> ActionIn(actions[i], txs)
  }

  /** Nothing removes such a transaction: over every run of submissions, applications,
      refusals, prunings and clean-ups, a pool transaction that is not usable stays in the
      pool, and whenever it is selected the block that is built is refused. */
  lemma {:induction false} OffenderStays(env: Env, s: Sys, actions: seq<PoolAction>, txs: set<Transaction>, id: Hash32)
    requires SysInv(env, s, txs) && IdsUnique(env, txs)
    requires ActionsIn(actions, txs)
    requires id in s.pool.txs && !Usable(s.history.store, s.pool.txs[id])
    ensures var t := ActAll(env, s, actions);
            && SysInv(env, t, txs) && id in t.pool.txs && t.pool.txs[id] == s.pool.txs[id]
            && !Usable(t.history.store, t.pool.txs[id])
    decreases |actions|
  {
    hide SysInv, Act, Usable, IdsUnique;
    if actions != [] {
      ActKeepsInv(env, s, actions[0], txs);
      ActKeepsOffender(env, s, actions[0], txs, id);
      OffenderStays(env, Act(env, s, actions[0]), actions[1..], txs, id);
    }
  }

  /** So a pool transaction stays for ever exactly when it is not usable: one that is
      leaves with a block of its own. */
  lemma StaysIff(env: Env, s: Sys, txs: set<Transaction>, id: Hash32)
    requires SysInv(env, s, txs) && IdsUnique(env, txs) && id in s.pool.txs
    ensures (forall actions :: ActionsIn(actions, txs) ==> id in ActAll(env, s, actions).pool.txs) <==>
              !Usable(s.history.store, s.pool.txs[id])
  {
    hide ActAll, IdsUnique, Inv, PoolInv;
    if Usable(s.history.store, s.pool.txs[id]) {
      var actions := Mines(env, s, txs, id);
      assert ActionsIn(actions, txs) && id !in ActAll(env, s, actions).pool.txs;
    } else {
      forall actions | ActionsIn(actions, txs)
        ensures id in ActAll(env, s, actions).pool.txs
      {
        OffenderStays(env, s, actions, txs, id);
      }
    }
  }

  lemma Mines(env: Env, s: Sys, txs: set<Transaction>, id: Hash32) returns (actions: seq<PoolAction>)
    requires SysInv(env, s, txs) && id in s.pool.txs && Usable(s.history.store, s.pool.txs[id])
    ensures ActionsIn(actions, txs) && id !in ActAll(env, s, actions).pool.txs
  {
    hide Inv, ApplyBlock;
    var tx := s.pool.txs[id];
    var header :=
      BlockHeader(ExpectedHeight(s.history.store), ZERO, ZERO, ZERO, ZERO, 0, 0, ZERO, ZERO, DEVNET_CHAIN_ID, 0, 0);
    var block := Block(header, [tx], []);
    var a := PoolAction.Ledger(Apply(block, map[], []), true);
    actions := [a];
    assert Spends([tx]) == tx.spends by {
      assert [tx][1..] == [] && tx.spends + [] == tx.spends;
    }
    Accepted(env, s.history.store, block, map[], []);
    RemoveMinedEffect(env, s.pool, [tx]);
    assert env.txId([tx][0]) in TxIds(env.txId, [tx]);
    assert ActAll(env, Act(env, s, a), []) == Act(env, s, a) && actions[1..] == [];
  }

  lemma OffenderStalls(env: Env, s: Sys, actions: seq<PoolAction>, txs: set<Transaction>, id: Hash32,
          order: seq<Hash32>, proposer: Hash32, vrf: Hash32, timestamp: nat, epoch: nat, changes: map<Bytes, Bytes>,
          added: seq<(Hash32, Bytes)>)
    requires SysInv(env, s, txs) && IdsUnique(env, txs)
    requires ActionsIn(actions, txs)
    requires id in s.pool.txs && !Usable(s.history.store, s.pool.txs[id])
    requires IsShuffle(ActAll(env, s, actions).pool, order)
    ensures var t := ActAll(env, s, actions);
            var r := Select(env, t.pool, order, MAX_BLOCK_TXS, MAX_BLOCK_GAS);
            s.pool.txs[id] in r ==>
              ApplyBlock(env, t.history.store, BuildBlock(env, t.history.store, r, proposer, vrf, timestamp, epoch),
                         changes, added).1.Err?
  {
    hide Select, BuildBlock, ApplyBlock, Inv, PoolInv, Usable, ActAll, IdsUnique;
    OffenderStays(env, s, actions, txs, id);
    var t := ActAll(env, s, actions);
    BuiltAcceptedIff(env, t.history.store, t.pool, order, proposer, vrf, timestamp, epoch, changes, added);
  }

  /** Pipeline. From a clean pool, the block built from the selection drops nothing
      and its header describes its body; the unchanged store accepts it; and after
      the clean-up the pool is clean again. */
  lemma Pipeline(env: Env, s: Store, p: Pool, order: seq<Hash32>, proposer: Hash32, vrf: Hash32, timestamp: nat,
          epoch: nat, changes: map<Bytes, Bytes>, added: seq<(Hash32, Bytes)>)
    requires Clean(env, s, p) && IsShuffle(p, order)
    ensures var r := Select(env, p, order, MAX_BLOCK_TXS, MAX_BLOCK_GAS);
            var b := BuildBlock(env, s, r, proposer, vrf, timestamp, epoch);
            var (after, applied) := ApplyBlock(env, s, b, changes, added);
            && b.transactions == r && Describes(env, b) && b.header.height == ExpectedHeight(s)
            && applied.Ok? && after.chainHeight == Some(ExpectedHeight(s))
            && Clean(env, after, RemoveMined(env, p, r))
            && (forall n :: n in s.nullifiers || n in Spends(r) ==> n in after.nullifiers)
  {
    hide Select, Truncate, BuildBlock, ApplyBlock, PoolInv, Spends, Describes, Usable;
    var r := Select(env, p, order, MAX_BLOCK_TXS, MAX_BLOCK_GAS);
    var b := BuildBlock(env, s, r, proposer, vrf, timestamp, epoch);
    CleanKeyed(env, s, p);
    SelectionIsKept(env, p, order);
    Built(env, s, r, proposer, vrf, timestamp, epoch);
    GreedyPacking(env, p, order, MAX_BLOCK_TXS, MAX_BLOCK_GAS);
    SelectionSpendsIff(env, s, p, r);
    AppliedSelection(env, s, b, changes, added);
    CleanAfter(env, s, p, r, ApplyBlock(env, s, b, changes, added).0);
  }

  lemma CleanKeyed(env: Env, s: Store, p: Pool)
    requires Clean(env, s, p)
    ensures Keyed(env, p)
  {
  }

  lemma Built(env: Env, s: Store, r: seq<Transaction>, proposer: Hash32, vrf: Hash32, timestamp: nat, epoch: nat)
    requires Truncate(r, 0) == (r, Gas(r)) && Gas(r) <= MAX_BLOCK_GAS
    ensures var b := BuildBlock(env, s, r, proposer, vrf, timestamp, epoch);
            b.transactions == r && Describes(env, b) && b.header.height == ExpectedHeight(s)
  {
  }

  lemma AppliedSelection(env: Env, s: Store, b: Block, changes: map<Bytes, Bytes>, added: seq<(Hash32, Bytes)>)
    requires b.header.height == ExpectedHeight(s)
    requires Distinct(Spends(b.transactions)) && Disjoint(Spends(b.transactions), s.nullifiers)
    ensures var (after, applied) := ApplyBlock(env, s, b, changes, added);
            && applied.Ok? && after.chainHeight == Some(ExpectedHeight(s))
            && Marks(s.nullifiers, after.nullifiers, Spends(b.transactions), b.header.height)
            && forall n :: n in Spends(b.transactions) ==> n in after.nullifiers
  {
    ApplyTxsFlat(env.hashPair, s, b.transactions, b.header.height);
    SpendAllMarks(s.nullifiers, Spends(b.transactions), b.header.height);
  }

  lemma CleanAfter(env: Env, s: Store, p: Pool, r: seq<Transaction>, after: Store)
    requires Clean(env, s, p)
    requires forall tx :: tx in r ==> env.txId(tx) in p.txs && p.txs[env.txId(tx)] == tx
    requires forall n :: n in Spends(r) ==> exists tx :: tx in r && n in tx.spends
    requires exists height :: Marks(s.nullifiers, after.nullifiers, Spends(r), height)
    requires forall n :: n in Spends(r) ==> n in after.nullifiers
    ensures Clean(env, after, RemoveMined(env, p, r))
  {
    hide RemoveMined, Spends, PoolInv;
    MoreSpentKeepsInv(env, s.nullifiers, after.nullifiers, p);
    RemoveMinedKeepsInv(env, after.nullifiers, p, r);
    RemoveMinedEffect(env, p, r);
    var q := RemoveMined(env, p, r);
    forall id, n | id in q.txs && n in q.txs[id].spends
      ensures n !in after.nullifiers
    {
      if n in Spends(r) {
        var tx :| tx in r && n in tx.spends;
        OwnId(env, r, tx);
        OneOwner(env, s.nullifiers, p, id, env.txId(tx), n);
      }
    }
  }

  lemma OwnId(env: Env, r: seq<Transaction>, tx: Transaction)
    requires tx in r
    ensures env.txId(tx) in TxIds(env.txId, r)
  {
    var i :| 0 <= i < |r| && r[i] == tx;
    assert env.txId(r[i]) == env.txId(tx);
  }

  lemma OneOwner(env: Env, spent: map<Hash32, nat>, p: Pool, a: Hash32, b: Hash32, n: Hash32)
    requires PoolInv(env, spent, p) && a in p.txs && b in p.txs && n in p.txs[a].spends && n in p.txs[b].spends
    ensures a == b
  {
  }

  /** The hypothesis of the pipeline survives submissions, except of transactions
      that list one nullifier twice: the format check lets these in. */
  lemma SubmitKeepsCleanIff(env: Env, s: Store, p: Pool, tx: Transaction)
    requires Clean(env, s, p)
    ensures var (q, r) := Insert(env, s.nullifiers, p, tx);
            Clean(env, s, q) <==> r.Err? || Distinct(tx.spends)
  {
    hide PoolInv, Insert;
    InsertOutcome(env, s.nullifiers, p, tx);
    InsertKeepsInv(env, s.nullifiers, p, tx);
    Inserted(env, s.nullifiers, p, tx);
    var (q, r) := Insert(env, s.nullifiers, p, tx);
    if r.Ok? {
      var id := env.txId(tx);
      assert id in q.txs && q.txs[id] == tx;
      assert forall a :: a in q.txs && a != id ==> a in p.txs && q.txs[a] == p.txs[a];
    }
  }

  lemma Inserted(env: Env, spent: map<Hash32, nat>, p: Pool, tx: Transaction)
    ensures var (q, r) := Insert(env, spent, p, tx); r.Ok? ==> q.txs == p.txs[env.txId(tx) := tx]
  {
  }

  /** After any run of applications and prunings, a built block extends the chain:
      it has the next height and points to the last applied block, which pruning
      never removes. */
  lemma BuiltOnTip(env: Env, u: Universe, ops: seq<Op>, txs: seq<Transaction>, proposer: Hash32, vrf: Hash32,
          timestamp: nat, epoch: nat)
    requires CollisionFree(env, u) && OpsIn(ops, u)
    ensures var h := Run(env, GENESIS, ops);
            var b := BuildBlock(env, h.store, txs, proposer, vrf, timestamp, epoch);
            && b.header.height == |h.applied|
            && b.header.parentHash
               == if h.applied == [] then ZERO else env.headerHash(h.applied[|h.applied| - 1].header)
  {
    hide Run, CollisionFree, SpentInv, LeavesInv, AnchorsInv;
    GenesisInv(env);
    RunKeepsInv(env, GENESIS, ops);
    var h := Run(env, GENESIS, ops);
    if h.applied != [] {
      ReadsAfterAnyRun(env, u, ops, |h.applied| - 1);
    }
  }

  // ------------------------------------------------------------ state root check

  /** The tree has room for the outputs, and the trees with and without them show
      no hash collision. */
  ghost predicate Unambiguous(h: HashPair, depth: nat, leaves: seq<Hash32>, outputs: seq<Hash32>) {
    var n := Pow2(depth);
    |leaves| + |outputs| < n && !NodeCollision(h, depth, Pad(leaves + outputs, ZERO, n), Pad(leaves, ZERO, n))
  }

  /** The engine cleans the pool up only if the root after the block equals the
      state root in the header. The builder put the root before the block there, so
      (without a hash collision, below capacity) the check passes exactly for
      blocks all of whose outputs are zero. */
  lemma StateRootCheckPasses(env: Env, s: Store, leaves: seq<Hash32>, txs: seq<Transaction>, proposer: Hash32,
          vrf: Hash32, timestamp: nat, epoch: nat, changes: map<Bytes, Bytes>, added: seq<(Hash32, Bytes)>)
    requires Represents(env.hashPair, s.tree, leaves)
    requires Indexed(s.commitments, leaves)
    requires var b := BuildBlock(env, s, txs, proposer, vrf, timestamp, epoch);
             && ApplyBlock(env, s, b, changes, added).1.Ok?
             && Unambiguous(env.hashPair, |s.tree.frontier|, leaves, Outputs(b.transactions))
    ensures var b := BuildBlock(env, s, txs, proposer, vrf, timestamp, epoch);
            ApplyBlock(env, s, b, changes, added).1 == Ok(b.header.stateRoot) <==>
            forall c :: c in Outputs(b.transactions) ==> c == ZERO
  {
    hide Pow2, NodeCollision, Truncate, Root, Holds, Seal, PerfectRoot;
    var b := BuildBlock(env, s, txs, proposer, vrf, timestamp, epoch);
    var outputs := Outputs(b.transactions);
    var t := AppendAll(env.hashPair, s.tree, outputs);
    AppliedRoot(env, s, b, leaves, changes, added);
    AppendAllRepresents(env.hashPair, s.tree, leaves, outputs);
    RootBinding(env.hashPair, t, s.tree, leaves + outputs, leaves);
    PaddingAbsorbsIff(leaves, outputs, Pow2(|s.tree.frontier|));
  }

  lemma AppliedRoot(env: Env, s: Store, b: Block, leaves: seq<Hash32>, changes: map<Bytes, Bytes>,
          added: seq<(Hash32, Bytes)>)
    requires s.tree.size == |leaves| && Indexed(s.commitments, leaves) && ApplyBlock(env, s, b, changes, added).1.Ok?
    ensures ApplyBlock(env, s, b, changes, added).1
         == Ok(Root(env.hashPair, AppendAll(env.hashPair, s.tree, Outputs(b.transactions))))
  {
    ApplyTxsFlat(env.hashPair, s, b.transactions, b.header.height);
    AppendOutputsEffect(env.hashPair, s, Outputs(b.transactions), leaves);
  }

  lemma PaddingAbsorbsIff(leaves: seq<Hash32>, outputs: seq<Hash32>, n: nat)
    requires |leaves| + |outputs| <= n
    ensures Pad(leaves + outputs, ZERO, n) == Pad(leaves, ZERO, n) <==> forall c :: c in outputs ==> c == ZERO
  {
    var (a, b) := (Pad(leaves + outputs, ZERO, n), Pad(leaves, ZERO, n));
    assert forall i :: 0 <= i < |outputs| ==> a[|leaves| + i] == outputs[i] && b[|leaves| + i] == ZERO;
    if forall c :: c in outputs ==> c == ZERO {
      assert forall i :: 0 <= i < |outputs| ==> outputs[i] in outputs;
      assert a == b;
    }
    if a == b {
      assert forall i :: 0 <= i < |outputs| ==> outputs[i] == b[|leaves| + i];
    }
  }

  lemma {:induction false} SpendsLast(txs: seq<Transaction>, i: nat)
    requires i < |txs|
    ensures Spends(txs[..i + 1]) == Spends(txs[..i]) + txs[i].spends
  {
    if i > 0 {
      SpendsLast(txs[1..], i - 1);
      assert txs[..i + 1][1..] == txs[1..][..i] && txs[..i][1..] == txs[1..][..i - 1];
    }
  }

  // ---------------------------------------------------------------- the class

  class BlockBuilder {
    const state: StateStore

    constructor (state: StateStore)
      ensures this.state == state
    {
      this.state := state;
    }

    method Build(txs: seq<Transaction>, proposer: Hash32, vrf: Hash32, timestamp: nat, epoch: nat) returns (b: Block)
      requires state.Valid()
      ensures b == BuildBlock(state.env, state.State(), txs, proposer, vrf, timestamp, epoch)
    {
      var env := state.env;
      var height := ExpectedHeight(state.State());
      var parentHash := ParentHash(env, state.State());
      var nullifiers: seq<Hash32> := [];
      for i := 0 to |txs|
        invariant nullifiers == Spends(txs[..i])
      {
        SpendsLast(txs, i);
        nullifiers := nullifiers + txs[i].spends;
      }
      assert txs[..|txs|] == txs && txs[0..] == txs;
      var gasUsed: nat := 0;
      var kept: seq<Transaction> := [];
      var i := 0;
      while i < |txs|
        invariant i <= |txs|
        invariant Truncate(txs, 0).0 == kept + Truncate(txs[i..], gasUsed).0
        invariant Truncate(txs, 0).1 == Truncate(txs[i..], gasUsed).1
      {
        assert txs[i..][1..] == txs[i + 1..];
        var tx := txs[i];
        i := i + 1;
        if tx.gasLimit > MAX_TX_GAS {
          continue;
        }
        if gasUsed + tx.gasLimit > MAX_BLOCK_GAS {
          break;
        }
        gasUsed := gasUsed + tx.gasLimit;
        kept := kept + [tx];
      }
      var stateRoot := state.tree.CurrentRoot();
      var header := BlockHeader(height, parentHash, stateRoot, TxRoot(env, txs), env.nullifiersHash(nullifiers),
                                timestamp, epoch, vrf, proposer, DEVNET_CHAIN_ID, gasUsed, MAX_BLOCK_GAS);
      b := Block(header, kept, []);
    }
  }
}
