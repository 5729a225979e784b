/** The contract phase of executing a block, and what it leaves in the store. */
module Contracts {
  import opened Types
  import opened Vm
  import Ledger

  /** How the node turns bytecode and a method name into a runnable contract. */
  datatype Runtime = Runtime(blake3: Bytes -> Hash32, load: (Bytes, string) -> Option<Contract>)

  // ------------------------------------------------------------ composite keys

  function CompositeKey(id: Hash32, key: Bytes): Bytes {
    id.bytes + key
  }

  function KeysOf(cs: map<Bytes, Bytes>, id: Hash32): set<Bytes> {
    set c | c in cs && id.bytes <= c :: c[32..]
  }

  /** The state of one contract within the shared map. */
  function StateOf(cs: map<Bytes, Bytes>, id: Hash32): map<Bytes, Bytes> {
    map key | key in KeysOf(cs, id) && CompositeKey(id, key) in cs :: cs[CompositeKey(id, key)]
  }

  /** A contract's overlay under its composite keys. */
  function Prefixed(id: Hash32, diff: map<Bytes, Bytes>): map<Bytes, Bytes> {
    map c | c in (set key | key in diff :: CompositeKey(id, key)) && c[32..] in diff :: diff[c[32..]]
  }

  lemma KeyRoundTrip(id: Hash32, other: Hash32, key: Bytes)
    ensures CompositeKey(id, key)[32..] == key
    ensures other.bytes <= CompositeKey(id, key) <==> other == id
  {
    if other.bytes <= CompositeKey(id, key) {
      assert other.bytes == CompositeKey(id, key)[..32] == id.bytes;
    }
  }

  lemma StateOfAt(cs: map<Bytes, Bytes>, id: Hash32, key: Bytes)
    ensures key in StateOf(cs, id) <==> CompositeKey(id, key) in cs
    ensures key in StateOf(cs, id) ==> StateOf(cs, id)[key] == cs[CompositeKey(id, key)]
  {
    KeyRoundTrip(id, id, key);
    var c := CompositeKey(id, key);
    if c in cs {
      assert c[32..] in KeysOf(cs, id);
    }
  }

  lemma PrefixedAt(id: Hash32, other: Hash32, diff: map<Bytes, Bytes>, key: Bytes)
    ensures CompositeKey(other, key) in Prefixed(id, diff) <==> other == id && key in diff
    ensures key in diff ==> Prefixed(id, diff)[CompositeKey(id, key)] == diff[key]
  {
    var c := CompositeKey(other, key);
    KeyRoundTrip(id, id, key);
    KeyRoundTrip(other, other, key);
    if c in Prefixed(id, diff) {
      var k :| k in diff && CompositeKey(id, k) == c;
      KeyRoundTrip(id, other, k);
      KeyRoundTrip(other, other, key);
      assert k == c[32..] == key;
    }
  }

  /** Writing one contract's overlay changes that contract's state by the overlay,
      and no other contract's state. */
  lemma CommitTouchesOne(cs: map<Bytes, Bytes>, id: Hash32, diff: map<Bytes, Bytes>, other: Hash32)
    ensures StateOf(cs + Prefixed(id, diff), other)
         == if other == id then StateOf(cs, id) + diff else StateOf(cs, other)
  {
    hide StateOf, Prefixed, CompositeKey;
    var after := cs + Prefixed(id, diff);
    var expected := if other == id then StateOf(cs, id) + diff else StateOf(cs, other);
    forall key
      ensures key in StateOf(after, other) <==> key in expected
      ensures key in expected ==> StateOf(after, other)[key] == expected[key]
    {
      StateOfAt(after, other, key);
      StateOfAt(cs, other, key);
      PrefixedAt(id, other, diff, key);
    }
  }

  // -------------------------------------------------------- the contract phase

  /** One attempt to execute a contract: a deployment's `init` or a call. */
  datatype Invocation = Invocation(id: Hash32, code: Bytes, methodName: string, gas: nat, deploys: bool)

  /** What the phase has collected: changes by composite key, and new contracts. */
  datatype Collected = Collected(changes: map<Bytes, Bytes>, added: seq<(Hash32, Bytes)>)

  function Deployment(rt: Runtime, tx: Transaction): seq<Invocation> {
    match tx.deployContract
    case None => []
    case Some(code) => [Invocation(rt.blake3(code), code, "init", tx.gasLimit, true)]
  }

  function CallOf(s: Ledger.Store, tx: Transaction): seq<Invocation> {
    match tx.contractCall
    case None => []
    case Some(call) =>
      if call.contractId in s.contracts
      then [Invocation(call.contractId, s.contracts[call.contractId], call.methodName, call.gasLimit, false)]
      else []
  }

  /** The attempts of one transaction. Code is looked up in the store as it was before
      the block; an oversized deployment skips the rest of its transaction. */
  function Attempts(rt: Runtime, s: Ledger.Store, tx: Transaction): seq<Invocation> {
    if tx.deployContract.Some? && |tx.deployContract.value| > MAX_CONTRACT_SIZE then []
    else Deployment(rt, tx) + CallOf(s, tx)
  }

  /** The attempts a block makes, in order. */
  function Invocations(rt: Runtime, s: Ledger.Store, txs: seq<Transaction>): seq<Invocation> {
    if txs == [] then [] else Attempts(rt, s, txs[0]) + Invocations(rt, s, txs[1..])
  }

  /** Every attempt runs on the state as it was before the block. */
  function Outcome(rt: Runtime, s: Ledger.Store, inv: Invocation): Result<Context, VmError> {
    Execute(rt.blake3, rt.load(inv.code, inv.methodName), inv.id, inv.gas, StateOf(s.contractState, inv.id))
  }

  function Collect(rt: Runtime, s: Ledger.Store, c: Collected, inv: Invocation): Collected {
    var r := Outcome(rt, s, inv);
    if r.Err? then c
    else
      var added := if inv.deploys then c.added + [(inv.id, inv.code)] else c.added;
      Collected(c.changes + Prefixed(inv.id, r.value.diff), added)
  }

  function CollectAll(rt: Runtime, s: Ledger.Store, c: Collected, invs: seq<Invocation>): Collected
    decreases |invs|
  {
    if invs == [] then c else CollectAll(rt, s, Collect(rt, s, c, invs[0]), invs[1..])
  }

  /** The changes and new contracts of a block. */
  function Phase(rt: Runtime, s: Ledger.Store, txs: seq<Transaction>): Collected {
    CollectAll(rt, s, Collected(map[], []), Invocations(rt, s, txs))
  }

  // ------------------------------------------------------ sequential reference

  /** Contract states that differ from the store's. */
  type States = map<Hash32, map<Bytes, Bytes>>

  function Current(s: Ledger.Store, states: States, id: Hash32): map<Bytes, Bytes> {
    if id in states then states[id] else StateOf(s.contractState, id)
  }

  /** The reference: attempts one after the other, each on the flat map that the
      earlier ones left, kept on success and dropped on a trap. */
  function Sequential(rt: Runtime, s: Ledger.Store, states: States, invs: seq<Invocation>): States
    decreases |invs|
  {
    if invs == [] then states
    else
      var inv := invs[0];
      var before := Current(s, states, inv.id);
      var after := FlatExecute(rt.blake3, rt.load(inv.code, inv.methodName), inv.id, inv.gas, before);
      Sequential(rt, s, states[inv.id := after], invs[1..])
  }

  /** All overlays of one contract in order, each computed from the state before the
      block. */
  function Overlays(rt: Runtime, s: Ledger.Store, invs: seq<Invocation>, id: Hash32): map<Bytes, Bytes>
    decreases |invs|
  {
    if invs == [] then map[]
    else
      var r := Outcome(rt, s, invs[0]);
      (if invs[0].id == id && r.Ok? then r.value.diff else map[]) + Overlays(rt, s, invs[1..], id)
  }

  lemma MergeAssoc(a: map<Bytes, Bytes>, b: map<Bytes, Bytes>, c: map<Bytes, Bytes>)
    ensures (a + b) + c == a + (b + c)
    ensures a + map[] == a && map[] + a == a
  {
  }

  lemma {:induction false} CollectAllOverlays(rt: Runtime, s: Ledger.Store, c: Collected, invs: seq<Invocation>,
          id: Hash32)
    ensures StateOf(s.contractState + CollectAll(rt, s, c, invs).changes, id)
         == StateOf(s.contractState + c.changes, id) + Overlays(rt, s, invs, id)
    decreases |invs|
  {
    hide StateOf, Outcome, Prefixed;
    var before := StateOf(s.contractState + c.changes, id);
    if invs == [] {
      MergeAssoc(before, map[], map[]);
    } else {
      var inv := invs[0];
      var (r, d) := (Outcome(rt, s, inv), Collect(rt, s, c, inv));
      var more := Overlays(rt, s, invs[1..], id);
      CollectAllOverlays(rt, s, d, invs[1..], id);
      MergeAssoc(before, map[], more);
      MergeAssoc(map[], more, more);
      if r.Ok? {
        CommitTouchesOne(s.contractState + c.changes, inv.id, r.value.diff, id);
        MergeAssoc(s.contractState, c.changes, Prefixed(inv.id, r.value.diff));
        MergeAssoc(before, r.value.diff, more);
      }
    }
  }

  /** What any block does to any contract: the state before the block, overlaid by
      the writes of its successful attempts, each of which saw that same state. */
  lemma BlockOverlays(rt: Runtime, s: Ledger.Store, txs: seq<Transaction>, id: Hash32)
    ensures StateOf(s.contractState + Phase(rt, s, txs).changes, id)
         == StateOf(s.contractState, id) + Overlays(rt, s, Invocations(rt, s, txs), id)
  {
    CollectAllOverlays(rt, s, Collected(map[], []), Invocations(rt, s, txs), id);
    assert s.contractState + map[] == s.contractState;
  }

  /** The block attempts to execute each contract at most once. */
  predicate AtMostOnce(invs: seq<Invocation>) {
    forall i, j :: 0 <= i < j < |invs| ==> invs[i].id != invs[j].id
  }

  lemma {:induction false} SequentialIsOverlay(rt: Runtime, s: Ledger.Store, states: States, invs: seq<Invocation>,
          id: Hash32)
    requires AtMostOnce(invs) && forall i :: 0 <= i < |invs| ==> invs[i].id !in states
    ensures Current(s, Sequential(rt, s, states, invs), id)
         == Current(s, states, id) + Overlays(rt, s, invs, id)
    decreases |invs|
  {
    hide StateOf, FlatExecute, Execute;
    var before := Current(s, states, id);
    if invs == [] {
      MergeAssoc(before, map[], map[]);
    } else {
      var inv := invs[0];
      var existing := StateOf(s.contractState, inv.id);
      ExecuteIsFlat(rt.blake3, rt.load(inv.code, inv.methodName), inv.id, inv.gas, existing);
      var after := FlatExecute(rt.blake3, rt.load(inv.code, inv.methodName), inv.id, inv.gas, existing);
      var next := states[inv.id := after];
      assert AtMostOnce(invs[1..]);
      SequentialIsOverlay(rt, s, next, invs[1..], id);
      var more := Overlays(rt, s, invs[1..], id);
      var r := Outcome(rt, s, inv);
      MergeAssoc(before, map[], more);
      MergeAssoc(map[], more, more);
      if r.Ok? {
        MergeAssoc(existing, r.value.diff, more);
      }
    }
  }

  /** A block that attempts each contract at most once leaves every contract with
      the state that sequential execution on flat maps gives it. */
  lemma BlockIsSequential(rt: Runtime, s: Ledger.Store, txs: seq<Transaction>, id: Hash32)
    requires AtMostOnce(Invocations(rt, s, txs))
    ensures StateOf(s.contractState + Phase(rt, s, txs).changes, id)
         == Current(s, Sequential(rt, s, map[], Invocations(rt, s, txs)), id)
  {
    BlockOverlays(rt, s, txs, id);
    SequentialIsOverlay(rt, s, map[], Invocations(rt, s, txs), id);
  }

  // ---------------------------------------------- told from the transactions

  /** The transaction deploys this code, which fits and whose `init` runs, with the gas of
      the transaction, on what is stored under the hash of the code. */
  predicate DeploysCode(rt: Runtime, s: Ledger.Store, tx: Transaction, code: Bytes) {
    && tx.deployContract == Some(code) && |code| <= 1024 * 1024
    && Execute(rt.blake3, rt.load(code, "init"), rt.blake3(code), tx.gasLimit,
               StateOf(s.contractState, rt.blake3(code))).Ok?
  }

  /** The transaction calls a contract that the store knew before the block, and does not
      carry an oversized deployment. */
  predicate Calls(s: Ledger.Store, tx: Transaction, call: ContractCall) {
    && tx.contractCall == Some(call) && call.contractId in s.contracts
    && (tx.deployContract.Some? ==> |tx.deployContract.value| <= 1024 * 1024)
  }

  /** What the deployment of a transaction writes to contract `id`. */
  function InitWrites(rt: Runtime, s: Ledger.Store, tx: Transaction, id: Hash32): map<Bytes, Bytes> {
    if tx.deployContract.Some? && DeploysCode(rt, s, tx, tx.deployContract.value)
       && rt.blake3(tx.deployContract.value) == id
    then Execute(rt.blake3, rt.load(tx.deployContract.value, "init"), id, tx.gasLimit,
                 StateOf(s.contractState, id)).value.diff
    else map[]
  }

  /** What its call writes to contract `id`, with the gas of the call. */
  function CallWrites(rt: Runtime, s: Ledger.Store, tx: Transaction, id: Hash32): map<Bytes, Bytes> {
    if tx.contractCall.Some? && Calls(s, tx, tx.contractCall.value) && tx.contractCall.value.contractId == id then
      var call := tx.contractCall.value;
      var r := Execute(rt.blake3, rt.load(s.contracts[id], call.methodName), id, call.gasLimit,
                       StateOf(s.contractState, id));
      if r.Ok? then r.value.diff else map[]
    else map[]
  }

  function BlockWrites(rt: Runtime, s: Ledger.Store, txs: seq<Transaction>, id: Hash32): map<Bytes, Bytes> {
    if txs == [] then map[]
    else (InitWrites(rt, s, txs[0], id) + CallWrites(rt, s, txs[0], id)) + BlockWrites(rt, s, txs[1..], id)
  }

  lemma {:induction false} OverlaysConcat(rt: Runtime, s: Ledger.Store, a: seq<Invocation>, b: seq<Invocation>,
          id: Hash32)
    ensures Overlays(rt, s, a + b, id) == Overlays(rt, s, a, id) + Overlays(rt, s, b, id)
    decreases |a|
  {
    hide Outcome;
    if a == [] {
      assert a + b == b;
      MergeAssoc(Overlays(rt, s, b, id), map[], map[]);
    } else {
      assert (a + b)[1..] == a[1..] + b;
      OverlaysConcat(rt, s, a[1..], b, id);
      var r := Outcome(rt, s, a[0]);
      var own := if a[0].id == id && r.Ok? then r.value.diff else map[];
      MergeAssoc(own, Overlays(rt, s, a[1..], id), Overlays(rt, s, b, id));
    }
  }

  lemma OneOverlay(rt: Runtime, s: Ledger.Store, inv: Invocation, id: Hash32)
    ensures Overlays(rt, s, [inv], id)
         == if inv.id == id && Outcome(rt, s, inv).Ok? then Outcome(rt, s, inv).value.diff else map[]
  {
    hide Outcome;
    assert [inv][1..] == [];
    var r := Outcome(rt, s, inv);
    var own := if inv.id == id && r.Ok? then r.value.diff else map[];
    MergeAssoc(own, map[], map[]);
  }

  lemma TxOverlays(rt: Runtime, s: Ledger.Store, tx: Transaction, id: Hash32)
    ensures Overlays(rt, s, Attempts(rt, s, tx), id) == InitWrites(rt, s, tx, id) + CallWrites(rt, s, tx, id)
  {
    hide Execute, StateOf, Overlays;
    var (init, call) := (InitWrites(rt, s, tx, id), CallWrites(rt, s, tx, id));
    MergeAssoc(init, map[], map[]);
    MergeAssoc(call, map[], map[]);
    NoOverlays(rt, s, id);
    OverlaysConcat(rt, s, Deployment(rt, tx), CallOf(s, tx), id);
    if tx.deployContract.Some? {
      var code := tx.deployContract.value;
      OneOverlay(rt, s, Invocation(rt.blake3(code), code, "init", tx.gasLimit, true), id);
    }
    if tx.contractCall.Some? && tx.contractCall.value.contractId in s.contracts {
      var c := tx.contractCall.value;
      OneOverlay(rt, s, Invocation(c.contractId, s.contracts[c.contractId], c.methodName, c.gasLimit, false), id);
    }
  }

  lemma NoOverlays(rt: Runtime, s: Ledger.Store, id: Hash32)
    ensures Overlays(rt, s, [], id) == map[]
  {
  }

  lemma {:induction false} BlockOverlaysAreWrites(rt: Runtime, s: Ledger.Store, txs: seq<Transaction>, id: Hash32)
    ensures Overlays(rt, s, Invocations(rt, s, txs), id) == BlockWrites(rt, s, txs, id)
  {
    hide Overlays, Attempts, InitWrites, CallWrites;
    if txs == [] {
      NoOverlays(rt, s, id);
    } else {
      TxOverlays(rt, s, txs[0], id);
      OverlaysConcat(rt, s, Attempts(rt, s, txs[0]), Invocations(rt, s, txs[1..]), id);
      BlockOverlaysAreWrites(rt, s, txs[1..], id);
    }
  }

  /** What an applied block does to a contract, from its transactions: in their order, the
      writes of each successful deployment and of each successful call of a contract known
      before the block, each run on the state from before the block. */
  lemma AppliedWrites(env: Env, rt: Runtime, s: Ledger.Store, block: Block, id: Hash32)
    ensures var c := Phase(rt, s, block.transactions);
            var (after, r) := Ledger.ApplyBlock(env, s, block, c.changes, c.added);
            StateOf(after.contractState, id)
            == if r.Ok? then StateOf(s.contractState, id) + BlockWrites(rt, s, block.transactions, id)
               else StateOf(s.contractState, id)
  {
    hide StateOf, Phase, Overlays, BlockWrites;
    var c := Phase(rt, s, block.transactions);
    BlockOverlays(rt, s, block.transactions, id);
    BlockOverlaysAreWrites(rt, s, block.transactions, id);
    AppliedContractState(env, s, block, c.changes, c.added);
  }

  /** The contracts a block attempts to execute, from its transactions. */
  function Touched(rt: Runtime, s: Ledger.Store, txs: seq<Transaction>): seq<Hash32> {
    if txs == [] then []
    else
      var tx := txs[0];
      var fits := tx.deployContract.None? || |tx.deployContract.value| <= 1024 * 1024;
      (if fits && tx.deployContract.Some? then [rt.blake3(tx.deployContract.value)] else [])
      + (if fits && tx.contractCall.Some? && tx.contractCall.value.contractId in s.contracts
         then [tx.contractCall.value.contractId] else [])
      + Touched(rt, s, txs[1..])
  }

  /** The reference, from the transactions: every deployment and call in turn, each on the
      flat map that the earlier ones left. */
  function InTurn(rt: Runtime, s: Ledger.Store, states: States, txs: seq<Transaction>): States
    decreases |txs|
  {
    if txs == [] then states
    else
      var tx := txs[0];
      if tx.deployContract.Some? && |tx.deployContract.value| > 1024 * 1024 then InTurn(rt, s, states, txs[1..])
      else
        var deployed := if tx.deployContract.None? then states else
          var id := rt.blake3(tx.deployContract.value);
          states[id := FlatExecute(rt.blake3, rt.load(tx.deployContract.value, "init"), id, tx.gasLimit,
                                   Current(s, states, id))];
        var called := if tx.contractCall.None? || tx.contractCall.value.contractId !in s.contracts then deployed else
          var (call, id) := (tx.contractCall.value, tx.contractCall.value.contractId);
          deployed[id := FlatExecute(rt.blake3, rt.load(s.contracts[id], call.methodName), id, call.gasLimit,
                                     Current(s, deployed, id))];
        InTurn(rt, s, called, txs[1..])
  }

  lemma {:induction false} SequentialConcat(rt: Runtime, s: Ledger.Store, states: States, a: seq<Invocation>,
          b: seq<Invocation>)
    ensures Sequential(rt, s, states, a + b) == Sequential(rt, s, Sequential(rt, s, states, a), b)
    decreases |a|
  {
    hide FlatExecute, Current;
    if a == [] {
      assert a + b == b;
    } else {
      assert (a + b)[1..] == a[1..] + b;
      var inv := a[0];
      var before := Current(s, states, inv.id);
      var after := FlatExecute(rt.blake3, rt.load(inv.code, inv.methodName), inv.id, inv.gas, before);
      SequentialConcat(rt, s, states[inv.id := after], a[1..], b);
    }
  }

  lemma {:induction false} InTurnIsSequential(rt: Runtime, s: Ledger.Store, states: States, txs: seq<Transaction>)
    ensures InTurn(rt, s, states, txs) == Sequential(rt, s, states, Invocations(rt, s, txs))
    decreases |txs|
  {
    hide FlatExecute, Current;
    if txs != [] {
      var (tx, rest) := (txs[0], Invocations(rt, s, txs[1..]));
      var next := Sequential(rt, s, states, Attempts(rt, s, tx));
      SequentialConcat(rt, s, states, Attempts(rt, s, tx), rest);
      InTurnIsSequential(rt, s, next, txs[1..]);
      SequentialConcat(rt, s, states, Deployment(rt, tx), CallOf(s, tx));
    }
  }

  function IdsOf(invs: seq<Invocation>): seq<Hash32> {
    seq(|invs|, i requires 0 <= i < |invs| => invs[i].id)
  }

  lemma IdsConcat(a: seq<Invocation>, b: seq<Invocation>)
    ensures IdsOf(a + b) == IdsOf(a) + IdsOf(b)
  {
  }

  lemma {:induction false} TouchedAreIds(rt: Runtime, s: Ledger.Store, txs: seq<Transaction>)
    ensures Touched(rt, s, txs) == IdsOf(Invocations(rt, s, txs))
  {
    if txs != [] {
      TouchedAreIds(rt, s, txs[1..]);
      IdsConcat(Attempts(rt, s, txs[0]), Invocations(rt, s, txs[1..]));
      IdsConcat(Deployment(rt, txs[0]), CallOf(s, txs[0]));
    }
  }

  /** A block that attempts each contract at most once leaves every contract with the
      state that running its transactions in turn on flat maps gives it; a refused block
      changes no state. */
  lemma AppliedIsSequential(env: Env, rt: Runtime, s: Ledger.Store, block: Block, id: Hash32)
    requires var ids := Touched(rt, s, block.transactions); forall i, j :: 0 <= i < j < |ids| ==> ids[i] != ids[j]
    ensures var c := Phase(rt, s, block.transactions);
            var (after, r) := Ledger.ApplyBlock(env, s, block, c.changes, c.added);
            && (r.Ok? ==> StateOf(after.contractState, id)
                          == Current(s, InTurn(rt, s, map[], block.transactions), id))
            && (r.Err? ==> StateOf(after.contractState, id) == StateOf(s.contractState, id))
  {
    hide StateOf, Phase, Sequential, InTurn, Current, Touched;
    var c := Phase(rt, s, block.transactions);
    var invs := Invocations(rt, s, block.transactions);
    TouchedAreIds(rt, s, block.transactions);
    assert AtMostOnce(invs) by {
      var ids := Touched(rt, s, block.transactions);
      assert forall i :: 0 <= i < |invs| ==> ids[i] == invs[i].id;
    }
    BlockIsSequential(rt, s, block.transactions, id);
    InTurnIsSequential(rt, s, map[], block.transactions);
    AppliedContractState(env, s, block, c.changes, c.added);
  }

  lemma AppliedContractState(env: Env, s: Ledger.Store, block: Block, changes: map<Bytes, Bytes>,
          added: seq<(Hash32, Bytes)>)
    ensures var (after, r) := Ledger.ApplyBlock(env, s, block, changes, added);
            after.contractState == if r.Ok? then s.contractState + changes else s.contractState
  {
  }

  // ------------------------------------------------------------ stored bytecode

  /** Every stored contract is kept under the hash of its bytecode. */
  ghost predicate ContentAddressed(rt: Runtime, contracts: map<Hash32, Bytes>) {
    forall id :: id in contracts ==> rt.blake3(contracts[id]) == id
  }

  ghost predicate OwnHashes(rt: Runtime, added: seq<(Hash32, Bytes)>) {
    forall i :: 0 <= i < |added| ==> rt.blake3(added[i].1) == added[i].0
  }

  lemma {:induction false} AttemptsOwnHashes(rt: Runtime, s: Ledger.Store, txs: seq<Transaction>)
    ensures forall i :: 0 <= i < |Invocations(rt, s, txs)| ==>
              var inv := Invocations(rt, s, txs)[i]; inv.deploys ==> rt.blake3(inv.code) == inv.id
  {
    if txs != [] {
      AttemptsOwnHashes(rt, s, txs[1..]);
    }
  }

  lemma {:induction false} CollectsOwnHashes(rt: Runtime, s: Ledger.Store, c: Collected, invs: seq<Invocation>)
    requires OwnHashes(rt, c.added)
    requires forall i :: 0 <= i < |invs| && invs[i].deploys ==> rt.blake3(invs[i].code) == invs[i].id
    ensures OwnHashes(rt, CollectAll(rt, s, c, invs).added)
    decreases |invs|
  {
    hide Outcome, Prefixed;
    if invs != [] {
      CollectsOwnHashes(rt, s, Collect(rt, s, c, invs[0]), invs[1..]);
    }
  }

  lemma {:induction false} PutKeepsAddresses(rt: Runtime, m: map<Hash32, Bytes>, added: seq<(Hash32, Bytes)>)
    requires ContentAddressed(rt, m) && OwnHashes(rt, added)
    ensures ContentAddressed(rt, Ledger.PutContracts(m, added))
    decreases |added|
  {
    if added != [] {
      PutKeepsAddresses(rt, m[added[0].0 := added[0].1], added[1..]);
    }
  }

  /** Executing and applying any block keeps the bytecode store content-addressed. */
  lemma StaysContentAddressed(env: Env, rt: Runtime, s: Ledger.Store, block: Block)
    requires ContentAddressed(rt, s.contracts)
    ensures var c := Phase(rt, s, block.transactions);
            ContentAddressed(rt, Ledger.ApplyBlock(env, s, block, c.changes, c.added).0.contracts)
  {
    var c := Phase(rt, s, block.transactions);
    AttemptsOwnHashes(rt, s, block.transactions);
    CollectsOwnHashes(rt, s, Collected(map[], []), Invocations(rt, s, block.transactions));
    PutKeepsAddresses(rt, s.contracts, c.added);
  }

  /** The listed contracts are those that transactions deploy, under the hashes of their
      code. */
  lemma {:induction false} ListsDeployed(rt: Runtime, s: Ledger.Store, c: Collected, txs: seq<Transaction>, code: Bytes)
    ensures var all := CollectAll(rt, s, c, Invocations(rt, s, txs)).added;
            (rt.blake3(code), code) in all <==>
              (rt.blake3(code), code) in c.added || exists tx :: tx in txs && DeploysCode(rt, s, tx, code)
    decreases |txs|
  {
    hide CollectAll, Attempts, DeploysCode;
    if txs == [] {
      NothingToCollect(rt, s, c);
    } else {
      var tx := txs[0];
      CollectAllConcat(rt, s, c, Attempts(rt, s, tx), Invocations(rt, s, txs[1..]));
      TxLists(rt, s, c, tx, code);
      ListsDeployed(rt, s, CollectAll(rt, s, c, Attempts(rt, s, tx)), txs[1..], code);
      assert txs == [tx] + txs[1..];
    }
  }

  lemma TxLists(rt: Runtime, s: Ledger.Store, c: Collected, tx: Transaction, code: Bytes)
    ensures var all := CollectAll(rt, s, c, Attempts(rt, s, tx)).added;
            (rt.blake3(code), code) in all <==> (rt.blake3(code), code) in c.added || DeploysCode(rt, s, tx, code)
  {
    hide CollectAll, Execute, StateOf, Prefixed;
    NothingToCollect(rt, s, c);
    CollectAllConcat(rt, s, c, Deployment(rt, tx), CallOf(s, tx));
    var d := CollectAll(rt, s, c, Deployment(rt, tx));
    if tx.deployContract.Some? {
      CollectOne(rt, s, c, Deployment(rt, tx)[0]);
    }
    NothingToCollect(rt, s, d);
    if tx.contractCall.Some? && tx.contractCall.value.contractId in s.contracts {
      CollectOne(rt, s, d, CallOf(s, tx)[0]);
    }
  }

  lemma CollectOne(rt: Runtime, s: Ledger.Store, c: Collected, inv: Invocation)
    ensures CollectAll(rt, s, c, [inv]) == Collect(rt, s, c, inv)
  {
    hide Collect;
    assert [inv][1..] == [];
  }

  lemma {:induction false} PutLast(m: map<Hash32, Bytes>, added: seq<(Hash32, Bytes)>, id: Hash32)
    ensures var r := Ledger.PutContracts(m, added);
            && (id in r <==> id in m || exists code :: (id, code) in added)
            && (id in r && (exists code :: (id, code) in added) ==> (id, r[id]) in added)
            && (id in m && !(exists code :: (id, code) in added) ==> r[id] == m[id])
    decreases |added|
  {
    if added != [] {
      PutLast(m[added[0].0 := added[0].1], added[1..], id);
      assert added == [added[0]] + added[1..];
      assert added[0].0 == id ==> (id, added[0].1) in added;
    }
  }

  /** After a block is applied a contract is known exactly if it was known before or a
      transaction deploys a code with this hash; its bytes then are such a code, and
      otherwise what they were. A refused block changes nothing here. */
  lemma DeploysExactly(env: Env, rt: Runtime, s: Ledger.Store, block: Block, id: Hash32)
    ensures var c := Phase(rt, s, block.transactions);
            var (after, r) := Ledger.ApplyBlock(env, s, block, c.changes, c.added);
            var deployed := exists tx, code ::
                              tx in block.transactions && DeploysCode(rt, s, tx, code) && rt.blake3(code) == id;
            && (r.Ok? ==>
                  && (id in after.contracts <==> id in s.contracts || deployed)
                  && (deployed ==> rt.blake3(after.contracts[id]) == id
                                   && exists tx :: tx in block.transactions
                                                   && DeploysCode(rt, s, tx, after.contracts[id]))
                  && (id in s.contracts && !deployed ==> after.contracts[id] == s.contracts[id]))
            && (r.Err? ==> after.contracts == s.contracts)
  {
    hide Phase, DeploysCode, Ledger.ApplyTxs, Ledger.PutContracts, Ledger.PutBlock;
    var c := Phase(rt, s, block.transactions);
    PhaseOwnHashes(rt, s, block.transactions);
    forall code
      ensures (rt.blake3(code), code) in c.added <==>
                exists tx :: tx in block.transactions && DeploysCode(rt, s, tx, code)
    {
      PhaseLists(rt, s, block.transactions, code);
    }
    PutLast(s.contracts, c.added, id);
    assert forall code :: (id, code) in c.added ==> rt.blake3(code) == id;
  }

  lemma PhaseLists(rt: Runtime, s: Ledger.Store, txs: seq<Transaction>, code: Bytes)
    ensures (rt.blake3(code), code) in Phase(rt, s, txs).added <==>
              exists tx :: tx in txs && DeploysCode(rt, s, tx, code)
  {
    hide CollectAll, DeploysCode, Invocations;
    ListsDeployed(rt, s, Collected(map[], []), txs, code);
  }

  lemma PhaseOwnHashes(rt: Runtime, s: Ledger.Store, txs: seq<Transaction>)
    ensures forall pair :: pair in Phase(rt, s, txs).added ==> rt.blake3(pair.1) == pair.0
  {
    AttemptsOwnHashes(rt, s, txs);
    CollectsOwnHashes(rt, s, Collected(map[], []), Invocations(rt, s, txs));
  }

  // -------------------------------------------- where one attempt is too few

  /** A contract that looks its key 0 up: it writes key 0 when it is absent, and
      key 1 when it is present. */
  function Toggle(past: seq<Answer>): Move {
    if past == [] then Call([0], StorageGet(0, 1, 0))
    else if |past| == 1 then Call(if past[0].value == -1 then [0] else [1], StorageSet(0, 1, 0, 1))
    else Return
  }

  lemma ToggleFlat(blake3: Bytes -> Hash32, id: Hash32, gas: nat, state: map<Bytes, Bytes>)
    requires gas >= 1_000 && ([0] in state ==> |state[[0]]| == 1)
    ensures FlatExecute(blake3, Some(Toggle), id, gas, state)
         == if [0] in state then state[[1] := [1]] else state[[0] := [0]]
  {
    var key: Bytes := [0];
    assert key[0..0 + 1] == key;
    var f := Flat(id, gas, state, [], [0]);
    var r := FlatHost(blake3, f, StorageGet(0, 1, 0));
    assert r.Ok? && r.value.0.gas == gas - 205 && r.value.0.state == state;
    assert r.value.1 == (if [0] in state then 1 else -1);
    var past := [] + [Answer(r.value.1, r.value.0.memory)];
    var memory: Bytes := if [0] in state then [1] else [0];
    var g := r.value.0.(memory := memory);
    assert memory[0..0 + 1] == memory;
    var q := FlatHost(blake3, g, StorageSet(0, 1, 0, 1));
    assert q.Ok? && q.value.0.state == state[memory := memory];
    var end := past + [Answer(q.value.1, q.value.0.memory)];
    assert FlatRun(blake3, Toggle, q.value.0, end) == Ok(q.value.0);
    assert FlatRun(blake3, Toggle, r.value.0, past) == Ok(q.value.0);
    assert FlatRun(blake3, Toggle, Flat(id, gas, state, [], []), []) == Ok(q.value.0);
  }

  /** Two attempts on one contract, in turn and as a block collects them. */
  lemma StaleAttempt(rt: Runtime, s: Ledger.Store, inv: Invocation)
    requires rt.load(inv.code, inv.methodName) == Some(Toggle) && inv.gas >= 1_000
    requires StateOf(s.contractState, inv.id) == map[]
    ensures StateOf(s.contractState + CollectAll(rt, s, Collected(map[], []), [inv, inv]).changes, inv.id)
         == map[[0] := [0]]
    ensures Current(s, Sequential(rt, s, map[], [inv, inv]), inv.id) == map[[0] := [0], [1] := [1]]
  {
    hide StateOf, FlatExecute, Execute, CollectAll;
    var id := inv.id;
    var once: map<Bytes, Bytes> := map[[0] := [0]];
    ToggleFlat(rt.blake3, id, inv.gas, map[]);
    ToggleFlat(rt.blake3, id, inv.gas, once);
    ExecuteIsFlat(rt.blake3, Some(Toggle), id, inv.gas, map[]);
    var r := Outcome(rt, s, inv);
    assert r.Ok? && r.value.diff == map[] + r.value.diff == once;
    CollectAllOverlays(rt, s, Collected(map[], []), [inv, inv], id);
    assert [inv, inv][1..] == [inv] && [inv][1..] == [];
    assert Overlays(rt, s, [inv], id) == once + map[] == once;
    assert Overlays(rt, s, [inv, inv], id) == once + once == once;
    assert s.contractState + map[] == s.contractState;
    assert once[[1] := [1]] == map[[0] := [0], [1] := [1]];
    var first: States := map[id := once];
    assert map[][id := once] == first;
    assert Sequential(rt, s, first, [inv]) == first[id := once[[1] := [1]]];
  }

  /** Two calls of one contract in one block: the second does not see what the
      first wrote, so the block does not do what running them in turn would. */
  lemma SecondCallIsStale(rt: Runtime, s: Ledger.Store, first: Transaction, second: Transaction, call: ContractCall)
    requires first.deployContract.None? && second.deployContract.None?
    requires first.contractCall == second.contractCall == Some(call) && call.gasLimit >= 1_000
    requires call.contractId in s.contracts && StateOf(s.contractState, call.contractId) == map[]
    requires rt.load(s.contracts[call.contractId], call.methodName) == Some(Toggle)
    ensures var (txs, id) := ([first, second], call.contractId);
            && StateOf(s.contractState + Phase(rt, s, txs).changes, id) == map[[0] := [0]]
            && Current(s, InTurn(rt, s, map[], txs), id) == map[[0] := [0], [1] := [1]]
  {
    hide StateOf, CollectAll, Sequential, InTurn;
    var code := s.contracts[call.contractId];
    var inv := Invocation(call.contractId, code, call.methodName, call.gasLimit, false);
    var txs := [first, second];
    assert txs[1..] == [second] && [second][1..] == [];
    assert Invocations(rt, s, [second]) == [inv];
    assert Invocations(rt, s, txs) == [inv] + [inv] == [inv, inv];
    StaleAttempt(rt, s, inv);
    InTurnIsSequential(rt, s, map[], txs);
  }

  // ------------------------------------------------------------- the two loops

  /** Scan the stored keys, in any order, for those with the contract's prefix. */
  method LoadState(cs: map<Bytes, Bytes>, id: Hash32) returns (state: map<Bytes, Bytes>)
    ensures state == StateOf(cs, id)
  {
    state := map[];
    var rest := cs.Keys;
    while rest != {}
      invariant rest <= cs.Keys
      invariant forall key :: key in state <==> CompositeKey(id, key) in cs && CompositeKey(id, key) !in rest
      invariant forall key :: key in state ==> state[key] == cs[CompositeKey(id, key)]
      decreases |rest|
    {
      var c :| c in rest;
      rest := rest - {c};
      if id.bytes <= c {
        assert CompositeKey(id, c[32..]) == c;
        state := state[c[32..] := cs[c]];
        forall key
          ensures CompositeKey(id, key) == c ==> key == c[32..]
        {
          KeyRoundTrip(id, id, key);
        }
      } else {
        forall key
          ensures CompositeKey(id, key) != c
        {
          KeyRoundTrip(id, id, key);
        }
      }
    }
    forall key
      ensures key in state <==> key in StateOf(cs, id)
      ensures key in state ==> state[key] == StateOf(cs, id)[key]
    {
      StateOfAt(cs, id, key);
    }
  }

  /** One attempt: load the state, execute, and collect the overlay on success. */
  method Attempt(rt: Runtime, s: Ledger.Store, c: Collected, inv: Invocation) returns (d: Collected)
    ensures d == Collect(rt, s, c, inv)
  {
    hide Execute, StateOf, Prefixed;
    var state := LoadState(s.contractState, inv.id);
    var r := Execute(rt.blake3, rt.load(inv.code, inv.methodName), inv.id, inv.gas, state);
    d := c;
    if r.Ok? {
      if inv.deploys {
        d := d.(added := d.added + [(inv.id, inv.code)]);
      }
      d := d.(changes := d.changes + Prefixed(inv.id, r.value.diff));
    }
  }

  lemma {:induction false} CollectAllConcat(rt: Runtime, s: Ledger.Store, c: Collected, a: seq<Invocation>,
          b: seq<Invocation>)
    ensures CollectAll(rt, s, c, a + b) == CollectAll(rt, s, CollectAll(rt, s, c, a), b)
    decreases |a|
  {
    hide Collect;
    if a == [] {
      assert a + b == b;
    } else {
      assert (a + b)[1..] == a[1..] + b;
      CollectAllConcat(rt, s, Collect(rt, s, c, a[0]), a[1..], b);
    }
  }

  /** Deploy, then call, unless the deployment is oversized. */
  method RunTransaction(rt: Runtime, s: Ledger.Store, c: Collected, tx: Transaction) returns (d: Collected)
    ensures d == CollectAll(rt, s, c, Attempts(rt, s, tx))
  {
    hide Collect;
    d := c;
    if tx.deployContract.Some? {
      var code := tx.deployContract.value;
      if |code| > MAX_CONTRACT_SIZE {
        return;
      }
      d := Attempt(rt, s, d, Invocation(rt.blake3(code), code, "init", tx.gasLimit, true));
    }
    CollectAllConcat(rt, s, c, Deployment(rt, tx), CallOf(s, tx));
    if tx.contractCall.Some? && tx.contractCall.value.contractId in s.contracts {
      var call := tx.contractCall.value;
      var code := s.contracts[call.contractId];
      d := Attempt(rt, s, d, Invocation(call.contractId, code, call.methodName, call.gasLimit, false));
    }
  }

  /** The contract phase of executing a block. */
  method ExecuteContracts(rt: Runtime, s: Ledger.Store, txs: seq<Transaction>)
    returns (changes: map<Bytes, Bytes>, added: seq<(Hash32, Bytes)>)
    ensures Collected(changes, added) == Phase(rt, s, txs)
  {
    hide CollectAll, Attempts;
    var c := Collected(map[], []);
    for i := 0 to |txs|
      invariant CollectAll(rt, s, c, Invocations(rt, s, txs[i..])) == Phase(rt, s, txs)
    {
      assert txs[i..][1..] == txs[i + 1..];
      CollectAllConcat(rt, s, c, Attempts(rt, s, txs[i]), Invocations(rt, s, txs[i + 1..]));
      c := RunTransaction(rt, s, c, txs[i]);
    }
    NothingToCollect(rt, s, c);
    changes, added := c.changes, c.added;
  }

  lemma NothingToCollect(rt: Runtime, s: Ledger.Store, c: Collected)
    ensures CollectAll(rt, s, c, []) == c
  {
  }
}
