/** What holds of the store over whole runs of applied, refused and pruned blocks. */
module Chain {
  import opened Types
  import opened Merkle
  import opened Ledger

  datatype Op =
    | Apply(block: Block, changes: map<Bytes, Bytes>, added: seq<(Hash32, Bytes)>)
    | Prune(keepLast: nat)

  /** A store together with the history that led to it: the blocks applied, the
      roots returned for them, every leaf written, how many of those leaves came
      from blocks that were then refused, and how many blocks were pruned. */
  datatype History = History(
    store: Store, applied: seq<Block>, roots: seq<Hash32>, leaves: seq<Hash32>, leaked: nat, pruned: nat)

  const GENESIS := History(EMPTY_STORE, [], [], [], 0, 0)

  function Spends(txs: seq<Transaction>): seq<Hash32> {
    if txs == [] then [] else txs[0].spends + Spends(txs[1..])
  }

  function Outputs(txs: seq<Transaction>): seq<Hash32> {
    if txs == [] then [] else txs[0].outputs + Outputs(txs[1..])
  }

  lemma {:induction false} SpendsContain(txs: seq<Transaction>, tx: Transaction, n: Hash32)
    requires tx in txs && n in tx.spends
    ensures n in Spends(txs)
    decreases |txs|
  {
    if tx != txs[0] {
      assert tx in txs[1..];
      SpendsContain(txs[1..], tx, n);
    }
  }

  /** All nullifiers spent by a list of blocks, in order. */
  function ChainSpends(blocks: seq<Block>): seq<Hash32> {
    if blocks == [] then [] else ChainSpends(blocks[..|blocks| - 1]) + Spends(blocks[|blocks| - 1].transactions)
  }

  /** All note commitments created by a list of blocks, in order. */
  function ChainOutputs(blocks: seq<Block>): seq<Hash32> {
    if blocks == [] then [] else ChainOutputs(blocks[..|blocks| - 1]) + Outputs(blocks[|blocks| - 1].transactions)
  }

  /** The outputs the transaction loop writes, whether or not it gets through. */
  function Written(spent: map<Hash32, nat>, txs: seq<Transaction>, height: nat): seq<Hash32>
    decreases |txs|
  {
    if txs == [] then []
    else
      var (after, ok) := SpendAll(spent, txs[0].spends, height);
      if ok then txs[0].outputs + Written(after, txs[1..], height) else []
  }

  function Step(env: Env, h: History, op: Op): History {
    match op
    case Apply(block, changes, added) =>
      var (store, r) := ApplyBlock(env, h.store, block, changes, added);
      var height := block.header.height;
      var written :=
        if height == ExpectedHeight(h.store) then Written(h.store.nullifiers, block.transactions, height) else [];
      if r.Ok? then
        h.(store := store, applied := h.applied + [block], roots := h.roots + [r.value], leaves := h.leaves + written)
      else
        h.(store := store, leaves := h.leaves + written, leaked := h.leaked + |written|)
    case Prune(keepLast) =>
      var (store, n) := PruneHistory(env, h.store, keepLast);
      h.(store := store, pruned := h.pruned + n)
  }

  function Run(env: Env, h: History, ops: seq<Op>): History
    decreases |ops|
  {
    if ops == [] then h else Run(env, Step(env, h, ops[0]), ops[1..])
  }

  ghost predicate Distinct<T>(s: seq<T>) {
    forall i, j :: 0 <= i < j < |s| ==> s[i] != s[j]
  }

  // --------------------------------------------------- the transaction loop

  ghost predicate Disjoint(a: seq<Hash32>, m: map<Hash32, nat>) {
    forall n :: n in a ==> n !in m
  }

  lemma DistinctConcat<T>(a: seq<T>, b: seq<T>)
    ensures Distinct(a + b) <==> Distinct(a) && Distinct(b) && forall x :: x in a ==> x !in b
  {
    var c := a + b;
    assert forall i :: 0 <= i < |a| ==> c[i] == a[i];
    assert forall i :: 0 <= i < |b| ==> c[|a| + i] == b[i];
    if Distinct(c) {
      forall i, j | 0 <= i < |a| && 0 <= j < |b|
        ensures a[i] != b[j]
      {
        assert c[i] != c[|a| + j];
      }
      forall i, j | 0 <= i < j < |b|
        ensures b[i] != b[j]
      {
        assert c[|a| + i] != c[|a| + j];
      }
    }
    if Distinct(a) && Distinct(b) && forall x :: x in a ==> x !in b {
      forall i, j | 0 <= i < j < |c|
        ensures c[i] != c[j]
      {
        if i < |a| <= j {
          assert c[i] in a && c[j] == b[j - |a|];
        } else if |a| <= i {
          assert c[i] == b[i - |a|] && c[j] == b[j - |a|];
        }
      }
    }
  }

  /** How the spent set grows from `spent` to `after` while `spends` are marked. */
  ghost predicate Marks(spent: map<Hash32, nat>, after: map<Hash32, nat>, spends: seq<Hash32>, height: nat) {
    && (forall n :: n in spent ==> n in after && after[n] == spent[n])
    && (forall n :: n in after && n !in spent ==> n in spends && after[n] == height)
  }

  /** Marking nullifiers succeeds exactly when they are distinct and unspent; it
      never forgets or changes one that was spent before. */
  lemma {:induction false} SpendAllMarks(spent: map<Hash32, nat>, spends: seq<Hash32>, height: nat)
    ensures var (after, ok) := SpendAll(spent, spends, height);
            && (ok <==> Distinct(spends) && Disjoint(spends, spent))
            && Marks(spent, after, spends, height)
            && (ok ==> forall n :: n in spends ==> n in after)
    decreases |spends|
  {
    if spends != [] && spends[0] !in spent {
      SpendAllMarks(spent[spends[0] := height], spends[1..], height);
      assert spends == [spends[0]] + spends[1..];
      DistinctConcat([spends[0]], spends[1..]);
    }
  }

  lemma {:induction false} AppendOutputsEffect(h: HashPair, s: Store, outputs: seq<Hash32>, leaves: seq<Hash32>)
    requires s.tree.size == |leaves| && Indexed(s.commitments, leaves)
    ensures var t := AppendOutputs(h, s, outputs);
            && t == s.(tree := AppendAll(h, s.tree, outputs), commitments := t.commitments)
            && Indexed(t.commitments, leaves + outputs)
    decreases |outputs|
  {
    if outputs == [] {
      assert leaves + outputs == leaves;
    } else {
      var c := outputs[0];
      var t := WriteOutput(h, s, c);
      AppendOutputsEffect(h, t, outputs[1..], leaves + [c]);
      assert leaves + [c] + outputs[1..] == leaves + outputs;
    }
  }

  /** The stored commitments are the leaves, by index. */
  ghost predicate Indexed(commitments: map<nat, Hash32>, leaves: seq<Hash32>) {
    && (forall i: nat :: i in commitments <==> i < |leaves|)
    && (forall i :: 0 <= i < |leaves| ==> commitments[i] == leaves[i])
  }

  lemma {:induction false} SpendAllConcat(spent: map<Hash32, nat>, a: seq<Hash32>, b: seq<Hash32>, height: nat)
    ensures var (after, ok) := SpendAll(spent, a, height);
            SpendAll(spent, a + b, height) == if ok then SpendAll(after, b, height) else (after, false)
    decreases |a|
  {
    if a == [] {
      assert a + b == b;
    } else if a[0] !in spent {
      assert (a + b)[1..] == a[1..] + b;
      SpendAllConcat(spent[a[0] := height], a[1..], b, height);
    }
  }

  lemma {:induction false} AppendOutputsConcat(h: HashPair, s: Store, a: seq<Hash32>, b: seq<Hash32>)
    ensures AppendOutputs(h, s, a + b) == AppendOutputs(h, AppendOutputs(h, s, a), b)
    decreases |a|
  {
    if a == [] {
      assert a + b == b;
    } else {
      assert (a + b)[1..] == a[1..] + b;
      AppendOutputsConcat(h, WriteOutput(h, s, a[0]), a[1..], b);
    }
  }

  lemma {:induction false} AppendOutputsIgnores(h: HashPair, s: Store, outputs: seq<Hash32>, spent: map<Hash32, nat>)
    ensures AppendOutputs(h, s, outputs).nullifiers == s.nullifiers
    ensures AppendOutputs(h, s.(nullifiers := spent), outputs) == AppendOutputs(h, s, outputs).(nullifiers := spent)
    decreases |outputs|
  {
    if outputs != [] {
      var c := outputs[0];
      var t := WriteOutput(h, s, c);
      AppendOutputsIgnores(h, t, outputs[1..], spent);
    }
  }

  /** The nested loops over transactions, spends and outputs, told flat: the spends
      are marked as one list, and the outputs written before a failure appended. */
  lemma {:induction false} ApplyTxsFlat(h: HashPair, s: Store, txs: seq<Transaction>, height: nat)
    ensures var (after, ok) := SpendAll(s.nullifiers, Spends(txs), height);
            && ApplyTxs(h, s, txs, height)
               == (AppendOutputs(h, s, Written(s.nullifiers, txs, height)).(nullifiers := after), ok)
            && (ok ==> Written(s.nullifiers, txs, height) == Outputs(txs))
    decreases |txs|
  {
    if txs != [] {
      var (spent, ok) := SpendAll(s.nullifiers, txs[0].spends, height);
      SpendAllConcat(s.nullifiers, txs[0].spends, Spends(txs[1..]), height);
      if ok {
        hide SpendAll, AppendOutputs;
        var outputs, more := txs[0].outputs, Written(spent, txs[1..], height);
        AppendOutputsIgnores(h, s, outputs, spent);
        var t := AppendOutputs(h, s, outputs);
        ApplyTxsFlat(h, t.(nullifiers := spent), txs[1..], height);
        AppendOutputsIgnores(h, t, more, spent);
        AppendOutputsConcat(h, s, outputs, more);
      }
    }
  }

  /** A block is accepted exactly when it has the expected height and its
      nullifiers, taken over all its transactions, are distinct and unspent. */
  lemma Accepted(env: Env, s: Store, block: Block, changes: map<Bytes, Bytes>, added: seq<(Hash32, Bytes)>)
    ensures ApplyBlock(env, s, block, changes, added).1.Ok? <==>
              && block.header.height == ExpectedHeight(s)
              && Distinct(Spends(block.transactions))
              && Disjoint(Spends(block.transactions), s.nullifiers)
  {
    ApplyTxsFlat(env.hashPair, s, block.transactions, block.header.height);
    SpendAllMarks(s.nullifiers, Spends(block.transactions), block.header.height);
  }

  /** Why a block is refused: a wrong height is reported with the expected and the given
      one, before anything else; then a nullifier that is listed twice or spent. */
  lemma RefusedBecause(env: Env, s: Store, block: Block, changes: map<Bytes, Bytes>, added: seq<(Hash32, Bytes)>)
    ensures var r := ApplyBlock(env, s, block, changes, added).1;
            var next := if s.chainHeight.Some? then s.chainHeight.value + 1 else 0;
            && (block.header.height != next <==> r == Err(InvalidTransition(next, block.header.height)))
            && (r == Err(StorageError.DoubleSpend) <==>
                  && block.header.height == next
                  && !(Distinct(Spends(block.transactions)) && Disjoint(Spends(block.transactions), s.nullifiers)))
  {
    Accepted(env, s, block, changes, added);
  }

  // ------------------------------------------------------ what every run keeps

  /** Applied blocks have heights 0, 1, 2, ... and the store knows the last one. */
  ghost predicate HeightsInv(h: History) {
    && (forall k :: 0 <= k < |h.applied| ==> h.applied[k].header.height == k)
    && h.store.chainHeight == (if |h.applied| == 0 then None else Some(|h.applied| - 1))
    && |h.roots| == |h.applied|
  }

  /** No nullifier is spent twice, and each spent one is recorded with its block. */
  ghost predicate SpentInv(h: History) {
    && Distinct(ChainSpends(h.applied))
    && (forall n :: n in ChainSpends(h.applied) ==> n in h.store.nullifiers)
    && (forall k, n :: 0 <= k < |h.applied| && n in Spends(h.applied[k].transactions) ==>
          n in h.store.nullifiers && h.store.nullifiers[n] == k)
  }

  /** The tree holds every leaf written; leaves of refused blocks are the only
      ones that do not belong to the applied blocks. */
  ghost predicate LeavesInv(env: Env, h: History) {
    && Represents(env.hashPair, h.store.tree, h.leaves) && |h.store.tree.frontier| == TREE_DEPTH
    && Indexed(h.store.commitments, h.leaves)
    && |h.leaves| == |ChainOutputs(h.applied)| + h.leaked
    && (h.leaked == 0 ==> h.leaves == ChainOutputs(h.applied))
  }

  /** `k` is the last applied block that returned `root`. */
  ghost predicate LastWith(roots: seq<Hash32>, root: Hash32, k: int) {
    0 <= k < |roots| && roots[k] == root && forall j :: k < j < |roots| ==> roots[j] != root
  }

  /** An anchor carries the expiry of the last block that returned it. */
  ghost predicate AnchorsInv(h: History) {
    && (forall a :: a in h.store.anchors ==> a in h.roots)
    && (forall k :: 0 <= k < |h.roots| ==> h.roots[k] in h.store.anchors)
    && (forall k :: 0 <= k < |h.roots| && LastWith(h.roots, h.roots[k], k) ==>
          h.store.anchors[h.roots[k]] == k + ANCHOR_EXPIRY_BLOCKS)
  }

  ghost predicate Inv(env: Env, h: History) {
    HeightsInv(h) && SpentInv(h) && LeavesInv(env, h) && AnchorsInv(h)
  }

  lemma {:induction false} PruneRangeKeeps(env: Env, s: Store, h: nat, end: nat)
    requires h <= end
    ensures var t := PruneRange(env, s, h, end).0;
            t == s.(heightHash := t.heightHash, blocks := t.blocks, txs := t.txs)
    decreases end - h
  {
    if h < end {
      var t := if h in s.heightHash
               then DeleteBlock(env, s.(heightHash := s.heightHash - {h}), s.heightHash[h]) else s;
      PruneRangeKeeps(env, t, h + 1, end);
    }
  }

  lemma PruneKeeps(env: Env, s: Store, keepLast: nat)
    ensures var t := PruneHistory(env, s, keepLast).0;
            t == s.(heightHash := t.heightHash, blocks := t.blocks, txs := t.txs)
  {
    if ChainHeight(s) > keepLast {
      PruneRangeKeeps(env, s, 0, ChainHeight(s) - keepLast);
    }
  }

  lemma ChainLast(blocks: seq<Block>, block: Block)
    ensures ChainSpends(blocks + [block]) == ChainSpends(blocks) + Spends(block.transactions)
    ensures ChainOutputs(blocks + [block]) == ChainOutputs(blocks) + Outputs(block.transactions)
  {
    assert (blocks + [block])[..|blocks|] == blocks;
  }

  /** What an application attempt at the expected height does, told flat. */
  lemma ApplyEffect(env: Env, h: History, block: Block, changes: map<Bytes, Bytes>, added: seq<(Hash32, Bytes)>)
    returns (after: map<Hash32, nat>, t: Store)
    requires LeavesInv(env, h) && block.header.height == ExpectedHeight(h.store)
    ensures var g := Step(env, h, Apply(block, changes, added));
            var spends := Spends(block.transactions);
            var written := Written(h.store.nullifiers, block.transactions, block.header.height);
            var ok := Distinct(spends) && Disjoint(spends, h.store.nullifiers);
            && Marks(h.store.nullifiers, after, spends, block.header.height)
            && g.leaves == h.leaves + written
            && t.tree == AppendAll(env.hashPair, h.store.tree, written)
            && Indexed(t.commitments, g.leaves)
            && t == h.store.(tree := t.tree, commitments := t.commitments, nullifiers := after)
            && (ok ==>
                  && g.store == Seal(env, t, block, changes, added)
                  && g.applied == h.applied + [block] && g.leaked == h.leaked
                  && g.roots == h.roots + [Root(env.hashPair, t.tree)]
                  && written == Outputs(block.transactions)
                  && forall n :: n in spends ==> n in after)
            && (!ok ==>
                  && g.store == t && g.applied == h.applied && g.roots == h.roots
                  && g.leaked == h.leaked + |written|)
            && g.pruned == h.pruned
  {
    hide SpendAll, AppendOutputs, Seal, Root;
    var spends := Spends(block.transactions);
    var written := Written(h.store.nullifiers, block.transactions, block.header.height);
    ApplyTxsFlat(env.hashPair, h.store, block.transactions, block.header.height);
    SpendAllMarks(h.store.nullifiers, spends, block.header.height);
    AppendOutputsEffect(env.hashPair, h.store, written, h.leaves);
    after := SpendAll(h.store.nullifiers, spends, block.header.height).0;
    t := AppendOutputs(env.hashPair, h.store, written).(nullifiers := after);
  }

  lemma SealKeeps(env: Env, t: Store, block: Block, changes: map<Bytes, Bytes>, added: seq<(Hash32, Bytes)>)
    ensures var s := Seal(env, t, block, changes, added);
            && s.tree == t.tree && s.commitments == t.commitments && s.nullifiers == t.nullifiers
            && s.chainHeight == Some(block.header.height)
            && s.anchors == t.anchors[Root(env.hashPair, t.tree) := block.header.height + ANCHOR_EXPIRY_BLOCKS]
            && s.contractState == t.contractState + changes
            && s.heightHash == t.heightHash[block.header.height := env.headerHash(block.header)]
            && s.blocks == t.blocks[env.headerHash(block.header) := block]
            && s.txs == PutTxs(env.txId, t.txs, block.transactions)
  {
  }

  lemma ApplyKeepsHeights(env: Env, h: History, block: Block, changes: map<Bytes, Bytes>, added: seq<(Hash32, Bytes)>)
    requires HeightsInv(h) && LeavesInv(env, h) && block.header.height == ExpectedHeight(h.store)
    ensures HeightsInv(Step(env, h, Apply(block, changes, added)))
  {
    hide Seal, Root, Written, Step, Marks, Distinct, LeavesInv;
    var _, t := ApplyEffect(env, h, block, changes, added);
    SealKeeps(env, t, block, changes, added);
  }

  lemma ApplyKeepsSpent(env: Env, h: History, block: Block, changes: map<Bytes, Bytes>, added: seq<(Hash32, Bytes)>)
    requires HeightsInv(h) && SpentInv(h) && LeavesInv(env, h) && block.header.height == ExpectedHeight(h.store)
    ensures SpentInv(Step(env, h, Apply(block, changes, added)))
  {
    hide Seal, Root, Written, Step, Distinct, LeavesInv, Spends, ChainSpends;
    var after, t := ApplyEffect(env, h, block, changes, added);
    SealKeeps(env, t, block, changes, added);
    ChainLast(h.applied, block);
    DistinctConcat(ChainSpends(h.applied), Spends(block.transactions));
  }

  lemma ApplyKeepsLeaves(env: Env, h: History, block: Block, changes: map<Bytes, Bytes>, added: seq<(Hash32, Bytes)>)
    requires LeavesInv(env, h) && block.header.height == ExpectedHeight(h.store)
    ensures LeavesInv(env, Step(env, h, Apply(block, changes, added)))
  {
    hide Seal, Root, Written, Step, Marks, Distinct, Represents, Indexed, ChainOutputs, Outputs;
    var _, t := ApplyEffect(env, h, block, changes, added);
    SealKeeps(env, t, block, changes, added);
    ChainLast(h.applied, block);
    AppendAllRepresents(env.hashPair, h.store.tree, h.leaves,
                        Written(h.store.nullifiers, block.transactions, block.header.height));
  }

  lemma AnchorsGrow(h: History, g: History, root: Hash32)
    requires |h.roots| == |h.applied| && AnchorsInv(h) && g.roots == h.roots + [root]
    requires g.store.anchors == h.store.anchors[root := |h.applied| + ANCHOR_EXPIRY_BLOCKS]
    ensures AnchorsInv(g)
  {
    forall k | 0 <= k < |g.roots| && LastWith(g.roots, g.roots[k], k)
      ensures g.store.anchors[g.roots[k]] == k + ANCHOR_EXPIRY_BLOCKS
    {
      if k < |h.roots| {
        assert g.roots[k] != g.roots[|h.roots|];
        forall j | k < j < |h.roots|
          ensures h.roots[j] != h.roots[k]
        {
          assert g.roots[j] != g.roots[k];
        }
        assert LastWith(h.roots, h.roots[k], k);
      }
    }
  }

  lemma ApplyKeepsAnchors(env: Env, h: History, block: Block, changes: map<Bytes, Bytes>, added: seq<(Hash32, Bytes)>)
    requires HeightsInv(h) && LeavesInv(env, h) && AnchorsInv(h) && block.header.height == ExpectedHeight(h.store)
    ensures AnchorsInv(Step(env, h, Apply(block, changes, added)))
  {
    hide Seal, Root, Written, Step, Marks, Distinct, LeavesInv;
    var g := Step(env, h, Apply(block, changes, added));
    var _, t := ApplyEffect(env, h, block, changes, added);
    SealKeeps(env, t, block, changes, added);
    if g.applied == h.applied + [block] {
      hide AnchorsInv;
      AnchorsGrow(h, g, Root(env.hashPair, t.tree));
    }
  }

  lemma StepKeepsInv(env: Env, h: History, op: Op)
    requires Inv(env, h)
    ensures Inv(env, Step(env, h, op))
  {
    hide SpentInv, LeavesInv, AnchorsInv;
    match op
    case Apply(block, changes, added) =>
      if block.header.height == ExpectedHeight(h.store) {
        ApplyKeepsHeights(env, h, block, changes, added);
        ApplyKeepsSpent(env, h, block, changes, added);
        ApplyKeepsLeaves(env, h, block, changes, added);
        ApplyKeepsAnchors(env, h, block, changes, added);
      } else {
        RefusedHeight(env, h, block, changes, added);
      }
    case Prune(keepLast) =>
      PruneKeeps(env, h.store, keepLast);
      PruneKeepsInv(env, h, Step(env, h, op));
  }

  lemma RefusedHeight(env: Env, h: History, block: Block, changes: map<Bytes, Bytes>, added: seq<(Hash32, Bytes)>)
    requires block.header.height != ExpectedHeight(h.store)
    ensures Step(env, h, Apply(block, changes, added)) == h
  {
    assert h.leaves + [] == h.leaves;
  }

  lemma PruneKeepsInv(env: Env, h: History, g: History)
    requires Inv(env, h)
    requires g == h.(store := h.store.(heightHash := g.store.heightHash, blocks := g.store.blocks, txs := g.store.txs),
                     pruned := g.pruned)
    ensures Inv(env, g)
  {
  }

  lemma {:induction false} RunKeepsInv(env: Env, h: History, ops: seq<Op>)
    requires Inv(env, h)
    ensures Inv(env, Run(env, h, ops))
    decreases |ops|
  {
    hide Inv, Step;
    if ops != [] {
      StepKeepsInv(env, h, ops[0]);
      RunKeepsInv(env, Step(env, h, ops[0]), ops[1..]);
    }
  }

  lemma GenesisInv(env: Env)
    ensures Inv(env, GENESIS)
  {
    hide Holds;
    EmptyHolds(env.hashPair, TREE_DEPTH);
    assert Represents(env.hashPair, GENESIS.store.tree, []);
    assert LeavesInv(env, GENESIS);
  }

  // ------------------------------------------------------------ main theorems

  /** No double spend over whole runs: whatever blocks are offered, refused half
      way or pruned, the applied ones have heights 0, 1, 2, ... and no nullifier
      occurs twice among all spends of all of them. */
  lemma NoDoubleSpend(env: Env, ops: seq<Op>)
    ensures var h := Run(env, GENESIS, ops);
            && (forall k :: 0 <= k < |h.applied| ==> h.applied[k].header.height == k)
            && Distinct(ChainSpends(h.applied))
  {
    GenesisInv(env);
    RunKeepsInv(env, GENESIS, ops);
  }

  /** Ledger root: the stored commitments are the outputs of the applied blocks by
      index, and the root is that of the padded depth-32 tree over them, when no
      refused block had written outputs; otherwise the commitments never are. */
  lemma LedgerRoot(env: Env, ops: seq<Op>)
    ensures var h := Run(env, GENESIS, ops);
            var depth := |h.store.tree.frontier|;
            var outputs := ChainOutputs(h.applied);
            && depth == 32
            && (Indexed(h.store.commitments, outputs) <==> h.leaked == 0)
            && (h.leaked == 0 && |outputs| < Pow2(depth) ==>
                  Root(env.hashPair, h.store.tree) == NaiveRoot(env.hashPair, depth, outputs))
  {
    hide Holds, PerfectRoot, Pow2;
    GenesisInv(env);
    RunKeepsInv(env, GENESIS, ops);
    var h := Run(env, GENESIS, ops);
    var outputs := ChainOutputs(h.applied);
    if h.leaked == 0 {
      if |outputs| < Pow2(|h.store.tree.frontier|) {
        RootIsNaive(env.hashPair, h.store.tree, h.leaves);
      }
    } else {
      assert |outputs| in h.store.commitments;
    }
  }

  /** With refused blocks in the run, the root covers what they left behind too. */
  lemma LedgerRootWithLeaks(env: Env, ops: seq<Op>)
    ensures var h := Run(env, GENESIS, ops);
            var depth := |h.store.tree.frontier|;
            && Indexed(h.store.commitments, h.leaves)
            && Root(env.hashPair, h.store.tree) == NaiveRoot(env.hashPair, depth, Recent(h.leaves, depth))
  {
    hide Holds, PerfectRoot, Pow2, Recent;
    GenesisInv(env);
    RunKeepsInv(env, GENESIS, ops);
    var h := Run(env, GENESIS, ops);
    RootIsNaiveOfRecent(env.hashPair, h.store.tree, h.leaves);
  }

  /** Anchor window: an anchor is valid at a height exactly when some applied block
      returned it as its root no more than the expiry window earlier. */
  lemma AnchorWindow(env: Env, ops: seq<Op>, anchor: Hash32, height: nat)
    ensures var h := Run(env, GENESIS, ops);
            IsValidAnchor(h.store, anchor, height) <==>
            exists k :: 0 <= k < |h.applied| == |h.roots| && h.roots[k] == anchor && height <= k + 100
  {
    GenesisInv(env);
    RunKeepsInv(env, GENESIS, ops);
    var h := Run(env, GENESIS, ops);
    if anchor in h.roots {
      var last := LastIndex(h.roots, anchor);
      assert h.store.anchors[anchor] == last + ANCHOR_EXPIRY_BLOCKS;
    }
  }

  lemma {:induction false} LastIndex(roots: seq<Hash32>, root: Hash32) returns (k: nat)
    requires root in roots
    ensures LastWith(roots, root, k)
    decreases |roots|
  {
    var n := |roots| - 1;
    if roots[n] == root {
      k := n;
    } else {
      k := LastIndex(roots[..n], root);
    }
  }

  // --------------------------------------------------- refusal is not atomic

  /** The first thing the transaction loop comes to is a spent nullifier. */
  predicate StopsAtOnce(spent: map<Hash32, nat>, txs: seq<Transaction>)
    decreases |txs|
  {
    txs != [] &&
    if txs[0].spends != [] then txs[0].spends[0] in spent
    else txs[0].outputs == [] && StopsAtOnce(spent, txs[1..])
  }

  lemma {:induction false} StopsAtOnceIff(spent: map<Hash32, nat>, txs: seq<Transaction>, height: nat)
    ensures var (after, ok) := SpendAll(spent, Spends(txs), height);
            StopsAtOnce(spent, txs) <==> !ok && after == spent && Written(spent, txs, height) == []
    decreases |txs|
  {
    if txs != [] {
      var first := txs[0].spends;
      if first == [] {
        assert first + Spends(txs[1..]) == Spends(txs[1..]);
        StopsAtOnceIff(spent, txs[1..], height);
      } else {
        var all := Spends(txs);
        assert all[0] == first[0];
        if first[0] !in spent {
          SpendAllMarks(spent[all[0] := height], all[1..], height);
          assert all[0] in SpendAll(spent, all, height).0;
        }
      }
    }
  }

  /** A refused block leaves the store as it was exactly when its height was wrong
      or it stopped before writing anything. */
  lemma RefusalIsAtomicIff(env: Env, s: Store, block: Block, changes: map<Bytes, Bytes>, added: seq<(Hash32, Bytes)>)
    requires ApplyBlock(env, s, block, changes, added).1.Err?
    ensures ApplyBlock(env, s, block, changes, added).0 == s <==>
              block.header.height != ExpectedHeight(s) || StopsAtOnce(s.nullifiers, block.transactions)
  {
    var (txs, height) := (block.transactions, block.header.height);
    if height == ExpectedHeight(s) {
      var written := Written(s.nullifiers, txs, height);
      ApplyTxsFlat(env.hashPair, s, txs, height);
      StopsAtOnceIff(s.nullifiers, txs, height);
      AppendOutputsSize(env.hashPair, s, written);
    }
  }

  lemma {:induction false} AppendOutputsSize(h: HashPair, s: Store, outputs: seq<Hash32>)
    ensures AppendOutputs(h, s, outputs).tree.size == s.tree.size + |outputs|
    decreases |outputs|
  {
    if outputs != [] {
      AppendOutputsSize(h, WriteOutput(h, s, outputs[0]), outputs[1..]);
    }
  }

  /** A block that spends one nullifier twice is refused, but on the empty store it
      leaves the nullifier spent and its first outputs in the tree: no block can
      ever spend that nullifier, although no applied block did. */
  lemma RefusedBlockBurns(env: Env, block: Block, later: Block, s: Store, changes: map<Bytes, Bytes>,
          added: seq<(Hash32, Bytes)>)
    requires |block.transactions| == 2 && block.header.height == 0
    requires |block.transactions[0].spends| == 1 && |block.transactions[0].outputs| == 1
    requires block.transactions[1].spends == block.transactions[0].spends
    requires s == ApplyBlock(env, EMPTY_STORE, block, changes, added).0
    requires block.transactions[0].spends[0] in Spends(later.transactions)
    ensures ApplyBlock(env, EMPTY_STORE, block, changes, added).1 == Err(DoubleSpend)
    ensures s.chainHeight == None && s.tree.size == 1
    ensures ApplyBlock(env, s, later, changes, added).1.Err?
  {
    var txs := block.transactions;
    var n := txs[0].spends[0];
    assert txs[1..] == [txs[1]];
    var (t, ok) := ApplyTxs(env.hashPair, EMPTY_STORE, txs, 0);
    var marked := EMPTY_STORE.(nullifiers := map[n := 0]);
    assert SpendAll(map[], txs[0].spends, 0) == (map[n := 0], true);
    var u := AppendOutputs(env.hashPair, marked, txs[0].outputs);
    AppendOutputsSize(env.hashPair, marked, txs[0].outputs);
    AppendOutputsIgnores(env.hashPair, marked, txs[0].outputs, map[]);
    assert Indexed(marked.commitments, []);
    AppendOutputsEffect(env.hashPair, marked, txs[0].outputs, []);
    assert ApplyTxs(env.hashPair, u, [txs[1]], 0) == (u, false);
    Accepted(env, s, later, changes, added);
  }
}
