/** The state store: what applying, reading and pruning blocks do to it. */
module Ledger {
  import opened Types
  import opened Merkle

  datatype StorageError = DoubleSpend | InvalidTransition(expected: nat, got: nat)

  /** Every tree of the database, as the map it is. */
  datatype Store = Store(
    tree: Tree,
    commitments: map<nat, Hash32>,
    nullifiers: map<Hash32, nat>,
    anchors: map<Hash32, nat>,
    contracts: map<Hash32, Bytes>,
    contractState: map<Bytes, Bytes>,
    blocks: map<Hash32, Block>,
    txs: map<Hash32, Transaction>,
    chainHeight: Option<nat>,
    heightHash: map<nat, Hash32>)

  const EMPTY_STORE := Store(EmptyTree(TREE_DEPTH), map[], map[], map[], map[], map[], map[], map[], None, map[])

  function ChainHeight(s: Store): nat {
    if s.chainHeight.Some? then s.chainHeight.value else 0
  }

  function ExpectedHeight(s: Store): nat {
    if s.chainHeight.Some? then s.chainHeight.value + 1 else 0
  }

  // -------------------------------------------------------------- apply_block

  /** Mark nullifiers as spent, in order, up to the first that already is. */
  function SpendAll(spent: map<Hash32, nat>, spends: seq<Hash32>, height: nat): (map<Hash32, nat>, bool)
    decreases |spends|
  {
    if spends == [] then (spent, true)
    else if spends[0] in spent then (spent, false)
    else SpendAll(spent[spends[0] := height], spends[1..], height)
  }

  /** Append one note commitment to the tree and store it under its leaf index. */
  function WriteOutput(h: HashPair, s: Store, c: Hash32): Store {
    s.(tree := Append(h, s.tree, c), commitments := s.commitments[s.tree.size := c])
  }

  function AppendOutputs(h: HashPair, s: Store, outputs: seq<Hash32>): (r: Store)
    ensures r == s.(tree := r.tree, commitments := r.commitments)
    decreases |outputs|
  {
    if outputs == [] then s else AppendOutputs(h, WriteOutput(h, s, outputs[0]), outputs[1..])
  }

  /** The transaction loop; what it wrote before a double spend stays written. */
  function ApplyTxs(h: HashPair, s: Store, txs: seq<Transaction>, height: nat): (r: (Store, bool))
    ensures r.0 == s.(tree := r.0.tree, commitments := r.0.commitments, nullifiers := r.0.nullifiers)
    decreases |txs|
  {
    if txs == [] then (s, true)
    else
      var (spent, ok) := SpendAll(s.nullifiers, txs[0].spends, height);
      var t := s.(nullifiers := spent);
      if ok then ApplyTxs(h, AppendOutputs(h, t, txs[0].outputs), txs[1..], height) else (t, false)
  }

  function PutContracts(m: map<Hash32, Bytes>, added: seq<(Hash32, Bytes)>): map<Hash32, Bytes>
    decreases |added|
  {
    if added == [] then m else PutContracts(m[added[0].0 := added[0].1], added[1..])
  }

  function PutTxs(txId: Transaction -> Hash32, m: map<Hash32, Transaction>, txs: seq<Transaction>)
    : map<Hash32, Transaction>
    decreases |txs|
  {
    if txs == [] then m else PutTxs(txId, m[txId(txs[0]) := txs[0]], txs[1..])
  }

  function PutBlock(env: Env, s: Store, block: Block): Store {
    s.(blocks := s.blocks[env.headerHash(block.header) := block], txs := PutTxs(env.txId, s.txs, block.transactions))
  }

  /** What follows the transaction loop when every spend was fresh. */
  function Seal(env: Env, s: Store, block: Block, changes: map<Bytes, Bytes>, added: seq<(Hash32, Bytes)>): Store {
    var height := block.header.height;
    PutBlock(env, s, block).(
      anchors := s.anchors[Root(env.hashPair, s.tree) := height + ANCHOR_EXPIRY_BLOCKS],
      contracts := PutContracts(s.contracts, added),
      contractState := s.contractState + changes,
      chainHeight := Some(height),
      heightHash := s.heightHash[height := env.headerHash(block.header)])
  }

  function ApplyBlock(env: Env, s: Store, block: Block, changes: map<Bytes, Bytes>, added: seq<(Hash32, Bytes)>)
    : (Store, Result<Hash32, StorageError>)
  {
    var height := block.header.height;
    if height != ExpectedHeight(s) then (s, Err(InvalidTransition(ExpectedHeight(s), height)))
    else
      var (t, ok) := ApplyTxs(env.hashPair, s, block.transactions, height);
      if ok then (Seal(env, t, block, changes, added), Ok(Root(env.hashPair, t.tree)))
      else (t, Err(DoubleSpend))
  }

  // ------------------------------------------------------------------ reading

  function IsValidAnchor(s: Store, anchor: Hash32, currentHeight: nat): bool {
    anchor in s.anchors && currentHeight <= s.anchors[anchor]
  }

  function GetBlock(s: Store, hash: Hash32): Option<Block> {
    if hash in s.blocks then Some(s.blocks[hash]) else None
  }

  function GetBlockByHeight(s: Store, height: nat): Option<Block> {
    if height in s.heightHash then GetBlock(s, s.heightHash[height]) else None
  }

  function GetTransaction(s: Store, id: Hash32): Option<Transaction> {
    if id in s.txs then Some(s.txs[id]) else None
  }

  // ------------------------------------------------------------------ pruning

  function TxIds(txId: Transaction -> Hash32, txs: seq<Transaction>): set<Hash32> {
    set i | 0 <= i < |txs| :: txId(txs[i])
  }

  function DeleteBlock(env: Env, s: Store, hash: Hash32): Store {
    if hash in s.blocks then
      s.(txs := s.txs - TxIds(env.txId, s.blocks[hash].transactions), blocks := s.blocks - {hash})
    else s
  }

  /** The pruning loop over the heights from `h` up to `end`, and its count. */
  function PruneRange(env: Env, s: Store, h: nat, end: nat): (Store, nat)
    requires h <= end
    decreases end - h
  {
    if h == end then (s, 0)
    else if h in s.heightHash then
      var t := DeleteBlock(env, s.(heightHash := s.heightHash - {h}), s.heightHash[h]);
      var (u, n) := PruneRange(env, t, h + 1, end);
      (u, n + 1)
    else PruneRange(env, s, h + 1, end)
  }

  function PruneHistory(env: Env, s: Store, keepLast: nat): (Store, nat) {
    if ChainHeight(s) <= keepLast then (s, 0) else PruneRange(env, s, 0, ChainHeight(s) - keepLast)
  }

  // ---------------------------------------------------------------- the class

  /** The set of spent nullifiers, each with the height that spent it. */
  class NullifierStore {
    var spent: map<Hash32, nat>

    constructor (spent: map<Hash32, nat>)
      ensures this.spent == spent
    {
      this.spent := spent;
    }

    predicate Contains(nullifier: Hash32)
      reads this
    {
      nullifier in spent
    }

    /** Refuses, changing nothing, exactly when the nullifier is spent already. */
    method Insert(nullifier: Hash32, height: nat) returns (r: Result<(), StorageError>)
      modifies this
      ensures r == if nullifier in old(spent) then Err(DoubleSpend) else Ok(())
      ensures spent == if nullifier in old(spent) then old(spent) else old(spent)[nullifier := height]
      ensures (spent, r.Ok?) == SpendAll(old(spent), [nullifier], height)
    {
      if Contains(nullifier) {
        return Err(DoubleSpend);
      }
      spent := spent[nullifier := height];
      return Ok(());
    }
  }

  class BlockStore {
    const env: Env
    var blocks: map<Hash32, Block>
    var txs: map<Hash32, Transaction>

    constructor (env: Env, blocks: map<Hash32, Block>, txs: map<Hash32, Transaction>)
      ensures this.env == env && this.blocks == blocks && this.txs == txs
    {
      this.env, this.blocks, this.txs := env, blocks, txs;
    }

    method Put(block: Block)
      modifies this
      ensures blocks == old(blocks)[env.headerHash(block.header) := block]
      ensures txs == PutTxs(env.txId, old(txs), block.transactions)
    {
      blocks := blocks[env.headerHash(block.header) := block];
      for i := 0 to |block.transactions|
        invariant PutTxs(env.txId, txs, block.transactions[i..]) == PutTxs(env.txId, old(txs), block.transactions)
        invariant blocks == old(blocks)[env.headerHash(block.header) := block]
      {
        var tx := block.transactions[i];
        assert block.transactions[i..][1..] == block.transactions[i + 1..];
        txs := txs[env.txId(tx) := tx];
      }
    }

    method Delete(hash: Hash32)
      modifies this
      ensures blocks == if hash in old(blocks) then old(blocks) - {hash} else old(blocks)
      ensures txs == if hash in old(blocks) then old(txs) - TxIds(env.txId, old(blocks)[hash].transactions)
                     else old(txs)
    {
      if hash in blocks {
        var list := blocks[hash].transactions;
        for i := 0 to |list|
          invariant txs == old(txs) - TxIds(env.txId, list[..i])
          invariant blocks == old(blocks)
        {
          txs := txs - {env.txId(list[i])};
          assert TxIds(env.txId, list[..i + 1]) == TxIds(env.txId, list[..i]) + {env.txId(list[i])};
        }
        assert list[..|list|] == list;
        blocks := blocks - {hash};
      }
    }
  }

  class StateStore {
    const env: Env
    const tree: NoteCommitmentTree
    const nullifiers: NullifierStore
    const blocks: BlockStore
    var anchors: map<Hash32, nat>
    var contracts: map<Hash32, Bytes>
    var contractState: map<Bytes, Bytes>
    var chainHeight: Option<nat>
    var heightHash: map<nat, Hash32>

    function Parts(): set<object> {
      {this, tree, nullifiers, blocks}
    }

    function State(): Store
      reads Parts()
    {
      Store(tree.State(), tree.db.commitments, nullifiers.spent, anchors, contracts, contractState,
            blocks.blocks, blocks.txs, chainHeight, heightHash)
    }

    ghost predicate Valid()
      reads Parts()
    {
      tree.Valid() && tree.h == env.hashPair && tree.depth == TREE_DEPTH && blocks.env == env
    }

    constructor (env: Env)
      ensures Valid() && fresh(Parts()) && this.env == env
      ensures State() == EMPTY_STORE
    {
      this.env := env;
      tree := new NoteCommitmentTree.Open(env.hashPair, TREE_DEPTH, TreeDb(None, None, map[]));
      nullifiers := new NullifierStore(map[]);
      blocks := new BlockStore(env, map[], map[]);
      anchors, contracts, contractState, chainHeight, heightHash := map[], map[], map[], None, map[];
    }

    method GetChainHeight() returns (height: nat)
      requires Valid()
      ensures height == ChainHeight(State())
    {
      height := if chainHeight.Some? then chainHeight.value else 0;
    }

    method Apply(block: Block, changes: map<Bytes, Bytes>, added: seq<(Hash32, Bytes)>)
      returns (r: Result<Hash32, StorageError>)
      requires Valid()
      modifies Parts()
      ensures Valid()
      ensures (State(), r) == ApplyBlock(env, old(State()), block, changes, added)
    {
      var height := block.header.height;
      var expected := if chainHeight.None? then 0 else chainHeight.value + 1;
      if height != expected {
        return Err(InvalidTransition(expected, height));
      }
      var txs := block.transactions;
      ghost var whole := ApplyTxs(env.hashPair, old(State()), txs, height);
      for i := 0 to |txs|
        invariant Valid()
        invariant ApplyTxs(env.hashPair, State(), txs[i..], height) == whole
      {
        var tx := txs[i];
        assert txs[i..][1..] == txs[i + 1..];
        var ok := SpendInputs(tx.spends, height);
        if !ok {
          return Err(DoubleSpend);
        }
        WriteOutputs(tx.outputs);
      }
      var root := Finish(block, changes, added);
      r := Ok(root);
    }

    /** The loop over the spends of one transaction. */
    method SpendInputs(spends: seq<Hash32>, height: nat) returns (ok: bool)
      modifies nullifiers
      ensures (nullifiers.spent, ok) == SpendAll(old(nullifiers.spent), spends, height)
    {
      for j := 0 to |spends|
        invariant SpendAll(nullifiers.spent, spends[j..], height) == SpendAll(old(nullifiers.spent), spends, height)
      {
        assert spends[j..][1..] == spends[j + 1..];
        if nullifiers.Contains(spends[j]) {
          return false;
        }
        nullifiers.spent := nullifiers.spent[spends[j] := height];
      }
      return true;
    }

    /** The loop over the outputs of one transaction. */
    method WriteOutputs(outputs: seq<Hash32>)
      requires Valid()
      modifies tree
      ensures Valid()
      ensures State() == AppendOutputs(env.hashPair, old(State()), outputs)
    {
      for j := 0 to |outputs|
        invariant Valid()
        invariant AppendOutputs(env.hashPair, State(), outputs[j..])
            == AppendOutputs(env.hashPair, old(State()), outputs)
      {
        assert outputs[j..][1..] == outputs[j + 1..];
        var leafIndex := tree.size;
        var _ := tree.AppendLeaf(outputs[j]);
        assert tree.db.commitments[leafIndex := outputs[j]] == tree.db.commitments;
        tree.db := tree.db.(commitments := tree.db.commitments[leafIndex := outputs[j]]);
      }
    }

    /** The part of `Apply` after the transaction loop. */
    method Finish(block: Block, changes: map<Bytes, Bytes>, added: seq<(Hash32, Bytes)>) returns (root: Hash32)
      requires Valid()
      modifies this, blocks
      ensures Valid()
      ensures root == Root(env.hashPair, old(State()).tree)
      ensures State() == Seal(env, old(State()), block, changes, added)
    {
      var height := block.header.height;
      root := tree.CurrentRoot();
      anchors := anchors[root := height + ANCHOR_EXPIRY_BLOCKS];
      for i := 0 to |added|
        invariant PutContracts(contracts, added[i..]) == PutContracts(old(contracts), added)
        invariant unchanged(this`contractState, this`chainHeight, this`heightHash, blocks)
        invariant anchors == old(anchors)[root := height + ANCHOR_EXPIRY_BLOCKS]
      {
        assert added[i..][1..] == added[i + 1..];
        contracts := contracts[added[i].0 := added[i].1];
      }
      WriteChanges(changes);
      blocks.Put(block);
      chainHeight := Some(height);
      heightHash := heightHash[height := env.headerHash(block.header)];
    }

    /** The changes are written in whatever order the hash map yields them. */
    method WriteChanges(changes: map<Bytes, Bytes>)
      modifies this`contractState
      ensures contractState == old(contractState) + changes
    {
      var rest := changes.Keys;
      while rest != {}
        invariant rest <= changes.Keys
        invariant contractState == old(contractState) + (changes - rest)
        decreases |rest|
      {
        var key :| key in rest;
        contractState := contractState[key := changes[key]];
        rest := rest - {key};
      }
      assert changes - rest == changes;
    }

    method Prune(keepLast: nat) returns (count: nat)
      requires Valid()
      modifies this, blocks
      ensures Valid()
      ensures (State(), count) == PruneHistory(env, old(State()), keepLast)
    {
      var height := GetChainHeight();
      if height <= keepLast {
        return 0;
      }
      var end := height - keepLast;
      count := 0;
      for h := 0 to end
        invariant Valid()
        invariant var (t, n) := PruneRange(env, State(), h, end);
                  (t, n + count) == PruneRange(env, old(State()), 0, end)
      {
        if h in heightHash {
          var hash := heightHash[h];
          heightHash := heightHash - {h};
          ghost var before := State();
          blocks.Delete(hash);
          assert State() == DeleteBlock(env, before, hash);
          count := count + 1;
        }
      }
    }
  }
}
