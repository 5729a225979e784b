/** The private mempool: reservations of nullifiers, and the choice of a block. */
module Mempool {
  import opened Types
  import opened Ledger
  import opened Chain
  import Sorting

  datatype MempoolError =
    | Full
    | AlreadyExists
    | InvalidFormat(error: TxFormatError)
    | FeeTooLow
    | AlreadySpent
    | DoubleSpend

  /** Transactions by id, and for each reserved nullifier the id it is kept for. */
  datatype Pool = Pool(txs: map<Hash32, Transaction>, pending: map<Hash32, Hash32>)

  const EMPTY_POOL := Pool(map[], map[])

  // ------------------------------------------------------------------- insert

  /** The first conflict of `spends` with the store or with a reservation. */
  function Conflict(spent: map<Hash32, nat>, pending: map<Hash32, Hash32>, spends: seq<Hash32>): Option<MempoolError> {
    if spends == [] then None
    else if spends[0] in spent then Some(AlreadySpent)
    else if spends[0] in pending then Some(MempoolError.DoubleSpend)
    else Conflict(spent, pending, spends[1..])
  }

  function Reserve(pending: map<Hash32, Hash32>, spends: seq<Hash32>, id: Hash32): map<Hash32, Hash32>
    decreases |spends|
  {
    if spends == [] then pending else Reserve(pending[spends[0] := id], spends[1..], id)
  }

  function Insert(env: Env, spent: map<Hash32, nat>, p: Pool, tx: Transaction): (Pool, Result<(), MempoolError>) {
    var id := env.txId(tx);
    var format := FormatError(env, tx);
    var conflict := Conflict(spent, p.pending, tx.spends);
    if |p.txs| >= MAX_MEMPOOL_SIZE then (p, Err(Full))
    else if id in p.txs then (p, Err(AlreadyExists))
    else if format.Some? then (p, Err(InvalidFormat(format.value)))
    else if tx.fee < MIN_FEE then (p, Err(FeeTooLow))
    else if conflict.Some? then (p, Err(conflict.value))
    else (Pool(p.txs[id := tx], Reserve(p.pending, tx.spends, id)), Ok(()))
  }

  // ------------------------------------------------------------- remove_mined

  function Release(pending: map<Hash32, Hash32>, spends: seq<Hash32>): map<Hash32, Hash32>
    decreases |spends|
  {
    if spends == [] then pending else Release(pending - {spends[0]}, spends[1..])
  }

  function RemoveMined(env: Env, p: Pool, txs: seq<Transaction>): Pool
    decreases |txs|
  {
    if txs == [] then p
    else RemoveMined(env, Pool(p.txs - {env.txId(txs[0])}, Release(p.pending, txs[0].spends)), txs[1..])
  }

  // --------------------------------------------------------- select_for_block

  predicate HigherFee(a: Transaction, b: Transaction) {
    a.fee >= b.fee
  }

  /** The valid transactions of the pool, in the order the shuffle left them. */
  function Candidates(env: Env, p: Pool, order: seq<Hash32>): (c: seq<Transaction>)
    ensures forall tx :: tx in c <==> WellFormed(env, tx) && exists id :: id in order && id in p.txs && p.txs[id] == tx
  {
    if order == [] then []
    else
      var rest := Candidates(env, p, order[1..]);
      assert order == [order[0]] + order[1..];
      if order[0] in p.txs && WellFormed(env, p.txs[order[0]]) then [p.txs[order[0]]] + rest else rest
  }

  /** The greedy pass over the candidates: stop at the count, skip what does not fit. */
  function Pack(c: seq<Transaction>, maxTxs: nat, maxGas: nat, count: nat, gas: nat): seq<Transaction>
    decreases |c|
  {
    if c == [] || count >= maxTxs then []
    else if gas + c[0].gasLimit > maxGas then Pack(c[1..], maxTxs, maxGas, count, gas)
    else [c[0]] + Pack(c[1..], maxTxs, maxGas, count + 1, gas + c[0].gasLimit)
  }

  function Select(env: Env, p: Pool, order: seq<Hash32>, maxTxs: nat, maxGas: nat): seq<Transaction> {
    Pack(Sorting.Sort(HigherFee, Candidates(env, p, order)), maxTxs, maxGas, 0, 0)
  }

  // ----------------------------------------------------------- greedy packing

  function Gas(txs: seq<Transaction>): nat {
    if txs == [] then 0 else txs[0].gasLimit + Gas(txs[1..])
  }

  /** The gas of the selected transactions that pay at least `fee`. */
  function GasFrom(txs: seq<Transaction>, fee: nat): nat {
    if txs == [] then 0 else (if txs[0].fee >= fee then txs[0].gasLimit else 0) + GasFrom(txs[1..], fee)
  }

  predicate MetFullSelection(r: seq<Transaction>, maxTxs: nat, count: nat, x: Transaction) {
    count + |r| == maxTxs && forall y :: y in r ==> y.fee >= x.fee
  }

  lemma {:induction false} PackFits(c: seq<Transaction>, maxTxs: nat, maxGas: nat, count: nat, gas: nat)
    requires count <= maxTxs && gas <= maxGas && Sorting.Sorted(HigherFee, c) && Distinct(c)
    ensures var r := Pack(c, maxTxs, maxGas, count, gas);
            && count + |r| <= maxTxs && gas + Gas(r) <= maxGas
            && (forall x :: x in r ==> x in c)
            && Sorting.Sorted(HigherFee, r) && Distinct(r)
    decreases |c|
  {
    if c != [] && count < maxTxs {
      assert c == [c[0]] + c[1..];
      if gas + c[0].gasLimit > maxGas {
        PackFits(c[1..], maxTxs, maxGas, count, gas);
      } else {
        PackFits(c[1..], maxTxs, maxGas, count + 1, gas + c[0].gasLimit);
        var rest := Pack(c[1..], maxTxs, maxGas, count + 1, gas + c[0].gasLimit);
        forall i | 0 <= i < |rest|
          ensures c[0].fee >= rest[i].fee && c[0] != rest[i]
        {
          assert rest[i] in c[1..];
        }
        var r := [c[0]] + rest;
        assert r == Pack(c, maxTxs, maxGas, count, gas);
        assert r[1..] == rest;
      }
    }
  }

  lemma {:induction false} PackIsMaximal(c: seq<Transaction>, maxTxs: nat, maxGas: nat, count: nat, gas: nat,
          x: Transaction)
    requires count <= maxTxs && Sorting.Sorted(HigherFee, c)
    requires x in c && x !in Pack(c, maxTxs, maxGas, count, gas)
    ensures var r := Pack(c, maxTxs, maxGas, count, gas);
            MetFullSelection(r, maxTxs, count, x) || gas + GasFrom(r, x.fee) + x.gasLimit > maxGas
    decreases |c|
  {
    if count < maxTxs {
      assert c == [c[0]] + c[1..];
      if gas + c[0].gasLimit > maxGas {
        if x != c[0] {
          PackIsMaximal(c[1..], maxTxs, maxGas, count, gas, x);
        }
      } else {
        PackIsMaximal(c[1..], maxTxs, maxGas, count + 1, gas + c[0].gasLimit, x);
        var rest := Pack(c[1..], maxTxs, maxGas, count + 1, gas + c[0].gasLimit);
        var r := [c[0]] + rest;
        assert r[1..] == rest && c[0].fee >= x.fee;
      }
    }
  }

  lemma HigherFeeOrders()
    ensures Sorting.TotalPreorder(HigherFee)
  {
  }

  /** The shuffle of the pool's keys: every id once. */
  ghost predicate IsShuffle(p: Pool, order: seq<Hash32>) {
    Distinct(order) && forall id :: id in order <==> id in p.txs
  }

  ghost predicate Keyed(env: Env, p: Pool) {
    forall id :: id in p.txs ==> env.txId(p.txs[id]) == id
  }

  lemma {:induction false} CandidatesDistinct(env: Env, p: Pool, order: seq<Hash32>)
    requires Keyed(env, p) && Distinct(order)
    ensures Distinct(Candidates(env, p, order))
  {
    if order != [] {
      CandidatesDistinct(env, p, order[1..]);
      var rest := Candidates(env, p, order[1..]);
      assert order == [order[0]] + order[1..];
      if order[0] in p.txs {
        assert forall i :: 0 <= i < |order[1..]| ==> order[1..][i] == order[i + 1];
        assert order[0] !in order[1..];
        assert p.txs[order[0]] !in rest;
      }
    }
  }

  lemma SameElements<T>(a: seq<T>, b: seq<T>)
    requires multiset(a) == multiset(b)
    ensures forall x :: x in a <==> x in b
    ensures Distinct(a) ==> Distinct(b)
  {
    forall x
      ensures x in a <==> x in b
    {
      assert x in a <==> x in multiset(a);
      assert x in b <==> x in multiset(b);
    }
    if Distinct(a) {
      forall i, j | 0 <= i < j < |b|
        ensures b[i] != b[j]
      {
        DistinctOnce(a, b[i]);
        if b[i] == b[j] {
          CountedTwice(b, i, j);
        }
      }
    }
  }

  lemma CountedTwice<T>(s: seq<T>, i: nat, j: nat)
    requires i < j < |s| && s[i] == s[j]
    ensures multiset(s)[s[i]] >= 2
  {
    assert s == s[..i] + [s[i]] + s[i + 1..j] + [s[j]] + s[j + 1..];
  }

  lemma {:induction false} DistinctOnce<T>(a: seq<T>, x: T)
    requires Distinct(a)
    ensures multiset(a)[x] <= 1
  {
    if a != [] {
      assert a == [a[0]] + a[1..];
      DistinctOnce(a[1..], x);
    }
  }

  /** Greedy packing. The selection is a duplicate-free, fee-descending choice of
      valid pool transactions within both limits, and every valid transaction left
      out either met a full selection of fees no lower than its own or does not fit
      beside the selected ones of fees no lower than its own. */
  lemma GreedyPacking(env: Env, p: Pool, order: seq<Hash32>, maxTxs: nat, maxGas: nat)
    requires Keyed(env, p) && IsShuffle(p, order)
    ensures var r := Select(env, p, order, maxTxs, maxGas);
            && |r| <= maxTxs && Gas(r) <= maxGas && Distinct(r) && Sorting.Sorted(HigherFee, r)
            && (forall tx :: tx in r ==> WellFormed(env, tx) && env.txId(tx) in p.txs && p.txs[env.txId(tx)] == tx)
            && (forall id :: id in p.txs && WellFormed(env, p.txs[id]) && p.txs[id] !in r ==>
                  || MetFullSelection(r, maxTxs, 0, p.txs[id])
                  || GasFrom(r, p.txs[id].fee) + p.txs[id].gasLimit > maxGas)
  {
    var c := Candidates(env, p, order);
    var sorted := Sorting.Sort(HigherFee, c);
    var r := Select(env, p, order, maxTxs, maxGas);
    HigherFeeOrders();
    Sorting.SortSorts(HigherFee, c);
    CandidatesDistinct(env, p, order);
    SameElements(c, sorted);
    PackFits(sorted, maxTxs, maxGas, 0, 0);
    forall id | id in p.txs && WellFormed(env, p.txs[id]) && p.txs[id] !in r
      ensures MetFullSelection(r, maxTxs, 0, p.txs[id]) || GasFrom(r, p.txs[id].fee) + p.txs[id].gasLimit > maxGas
    {
      PackIsMaximal(sorted, maxTxs, maxGas, 0, 0, p.txs[id]);
    }
  }

  lemma {:induction false} GasFromBelow(txs: seq<Transaction>, fee: nat)
    ensures GasFrom(txs, fee) <= Gas(txs)
  {
    if txs != [] {
      GasFromBelow(txs[1..], fee);
    }
  }

  /** If a valid transaction was left out below the count limit, less than the gas
      of one transaction is left unused. */
  lemma LittleGasLeft(env: Env, p: Pool, order: seq<Hash32>, maxTxs: nat, maxGas: nat, id: Hash32)
    requires Keyed(env, p) && IsShuffle(p, order) && id in p.txs && WellFormed(env, p.txs[id])
    requires var r := Select(env, p, order, maxTxs, maxGas); p.txs[id] !in r && |r| < maxTxs
    ensures Gas(Select(env, p, order, maxTxs, maxGas)) + 10_000_000 > maxGas
  {
    GreedyPacking(env, p, order, maxTxs, maxGas);
    GasFromBelow(Select(env, p, order, maxTxs, maxGas), p.txs[id].fee);
  }

  // ---------------------------------------------------- what the pool keeps

  lemma {:induction false} ConflictIff(spent: map<Hash32, nat>, pending: map<Hash32, Hash32>, spends: seq<Hash32>)
    ensures Conflict(spent, pending, spends).None? <==> forall n :: n in spends ==> n !in spent && n !in pending
    ensures Conflict(spent, pending, spends) != Some(FeeTooLow)
  {
    if spends != [] {
      ConflictIff(spent, pending, spends[1..]);
      assert spends[0] in spends && spends == [spends[0]] + spends[1..];
    }
  }

  lemma {:induction false} ReserveEffect(pending: map<Hash32, Hash32>, spends: seq<Hash32>, id: Hash32)
    ensures var r := Reserve(pending, spends, id);
            && (forall n :: n in r <==> n in pending || n in spends)
            && (forall n :: n in r ==> r[n] == if n in spends then id else pending[n])
    decreases |spends|
  {
    if spends != [] {
      var next := pending[spends[0] := id];
      ReserveEffect(next, spends[1..], id);
      assert forall n :: n in spends <==> n == spends[0] || n in spends[1..];
      assert forall n :: n in next <==> n in pending || n == spends[0];
    }
  }

  lemma {:induction false} ReleaseEffect(pending: map<Hash32, Hash32>, spends: seq<Hash32>)
    ensures var r := Release(pending, spends);
            && (forall n :: n in r <==> n in pending && n !in spends)
            && (forall n :: n in r ==> r[n] == pending[n])
    decreases |spends|
  {
    if spends != [] {
      ReleaseEffect(pending - {spends[0]}, spends[1..]);
      assert spends == [spends[0]] + spends[1..];
    }
  }

  lemma {:induction false} RemoveMinedEffect(env: Env, p: Pool, txs: seq<Transaction>)
    ensures var q := RemoveMined(env, p, txs);
            && q.txs == p.txs - TxIds(env.txId, txs)
            && (forall n :: n in q.pending <==> n in p.pending && n !in Spends(txs))
            && (forall n :: n in q.pending ==> q.pending[n] == p.pending[n])
    decreases |txs|
  {
    if txs == [] {
      assert TxIds(env.txId, txs) == {};
    } else {
      var id := env.txId(txs[0]);
      ReleaseEffect(p.pending, txs[0].spends);
      RemoveMinedEffect(env, Pool(p.txs - {id}, Release(p.pending, txs[0].spends)), txs[1..]);
      TxIdsCons(env.txId, txs);
    }
  }

  lemma TxIdsCons(txId: Transaction -> Hash32, txs: seq<Transaction>)
    requires txs != []
    ensures TxIds(txId, txs) == {txId(txs[0])} + TxIds(txId, txs[1..])
  {
    var rest := txs[1..];
    forall id | id in TxIds(txId, txs)
      ensures id in {txId(txs[0])} + TxIds(txId, rest)
    {
      var i :| 0 <= i < |txs| && txId(txs[i]) == id;
      if i > 0 { assert rest[i - 1] == txs[i]; }
    }
    forall id | id in TxIds(txId, rest)
      ensures id in TxIds(txId, txs)
    {
      var i :| 0 <= i < |rest| && txId(rest[i]) == id;
      assert txs[i + 1] == rest[i];
    }
  }

  ghost predicate NoSharing(p: Pool) {
    forall a, b, n :: a in p.txs && b in p.txs && n in p.txs[a].spends && n in p.txs[b].spends ==> a == b
  }

  ghost predicate Reserved(spent: map<Hash32, nat>, p: Pool) {
    forall a, n :: a in p.txs && n in p.txs[a].spends ==> n in spent || (n in p.pending && p.pending[n] == a)
  }

  ghost predicate Owned(p: Pool) {
    forall n :: n in p.pending ==> p.pending[n] in p.txs && n in p.txs[p.pending[n]].spends
  }

  /** The pool is keyed by id; no two transactions share a nullifier; a nullifier
      of a pool transaction is reserved for it or spent; and a reservation belongs
      to a pool transaction that spends it. */
  ghost predicate PoolInv(env: Env, spent: map<Hash32, nat>, p: Pool) {
    Keyed(env, p) && NoSharing(p) && Reserved(spent, p) && Owned(p)
  }

  /** Exactly which transactions enter the pool; the separate fee check never
      refuses one, because every fee tier is at least the minimum. */
  lemma InsertOutcome(env: Env, spent: map<Hash32, nat>, p: Pool, tx: Transaction)
    ensures var (q, r) := Insert(env, spent, p, tx);
            && (r.Ok? <==>
                  && |p.txs| < 10_000 && env.txId(tx) !in p.txs && WellFormed(env, tx)
                  && forall n :: n in tx.spends ==> n !in spent && n !in p.pending)
            && r != Err(FeeTooLow)
            && (r.Err? ==> q == p)
  {
    ConflictIff(spent, p.pending, tx.spends);
  }

  /** The first nullifier of the list that is spent or reserved, if any. */
  ghost predicate FirstTaken(spent: map<Hash32, nat>, pending: map<Hash32, Hash32>, spends: seq<Hash32>, i: nat) {
    && i < |spends| && (spends[i] in spent || spends[i] in pending)
    && forall j :: 0 <= j < i ==> spends[j] !in spent && spends[j] !in pending
  }

  lemma {:induction false} ConflictIsFirst(spent: map<Hash32, nat>, pending: map<Hash32, Hash32>, spends: seq<Hash32>,
          i: nat)
    requires FirstTaken(spent, pending, spends, i)
    ensures Conflict(spent, pending, spends)
         == Some(if spends[i] in spent then AlreadySpent else MempoolError.DoubleSpend)
    decreases i
  {
    if i > 0 {
      ConflictIsFirst(spent, pending, spends[1..], i - 1);
    }
  }

  /** Why a submission is refused, in the order of the checks: a full pool, a known id, a
      broken format rule, and then the first nullifier that is taken, spent or reserved. */
  lemma RefusedFor(env: Env, spent: map<Hash32, nat>, p: Pool, tx: Transaction)
    ensures var r := Insert(env, spent, p, tx).1;
            var known := |p.txs| < 10_000 && env.txId(tx) in p.txs;
            var isNew := |p.txs| < 10_000 && env.txId(tx) !in p.txs;
            && (r == Err(Full) <==> |p.txs| >= 10_000) && (r == Err(AlreadyExists) <==> known)
            && (forall e :: r == Err(InvalidFormat(e)) <==> isNew && FormatError(env, tx) == Some(e))
            && (forall i: nat :: isNew && WellFormed(env, tx) && FirstTaken(spent, p.pending, tx.spends, i) ==>
                  r == Err(if tx.spends[i] in spent then AlreadySpent else MempoolError.DoubleSpend))
  {
    hide FormatError;
    ConflictIff(spent, p.pending, tx.spends);
    ConflictKinds(spent, p.pending, tx.spends);
    forall i: nat | FirstTaken(spent, p.pending, tx.spends, i)
      ensures Conflict(spent, p.pending, tx.spends)
           == Some(if tx.spends[i] in spent then AlreadySpent else MempoolError.DoubleSpend)
    {
      ConflictIsFirst(spent, p.pending, tx.spends, i);
    }
    FeeIsEnough(env, tx);
  }

  lemma FeeIsEnough(env: Env, tx: Transaction)
    ensures WellFormed(env, tx) ==> tx.fee >= MIN_FEE
  {
  }

  lemma {:induction false} ConflictKinds(spent: map<Hash32, nat>, pending: map<Hash32, Hash32>, spends: seq<Hash32>)
    ensures Conflict(spent, pending, spends) in {None, Some(AlreadySpent), Some(MempoolError.DoubleSpend)}
  {
    if spends != [] {
      ConflictKinds(spent, pending, spends[1..]);
    }
  }

  /** What a submission that is taken does: it is found under its id, its nullifiers are
      reserved for it, and nothing else changes. */
  lemma Entered(env: Env, spent: map<Hash32, nat>, p: Pool, tx: Transaction)
    ensures var (q, r) := Insert(env, spent, p, tx);
            r.Ok? ==>
              && q.txs == p.txs[env.txId(tx) := tx]
              && (forall n :: n in q.pending <==> n in p.pending || n in tx.spends)
              && (forall n :: n in q.pending ==> q.pending[n] == if n in tx.spends then env.txId(tx) else p.pending[n])
  {
    hide FormatError, Conflict, Reserve;
    ReserveEffect(p.pending, tx.spends, env.txId(tx));
  }

  lemma EnterNoSharing(spent: map<Hash32, nat>, p: Pool, q: Pool, id: Hash32, tx: Transaction)
    requires NoSharing(p) && Reserved(spent, p) && id !in p.txs && q.txs == p.txs[id := tx]
    requires forall n :: n in tx.spends ==> n !in spent && n !in p.pending
    ensures NoSharing(q)
  {
    forall a, n | a in p.txs && n in p.txs[a].spends
      ensures n !in tx.spends
    {
    }
    assert forall a :: a in q.txs && a != id ==> a in p.txs && q.txs[a] == p.txs[a];
  }

  lemma EnterReserved(spent: map<Hash32, nat>, p: Pool, q: Pool, id: Hash32, tx: Transaction)
    requires Reserved(spent, p) && Owned(p) && id !in p.txs && q.txs == p.txs[id := tx]
    requires forall n :: n in tx.spends ==> n !in spent && n !in p.pending
    requires forall n :: n in q.pending <==> n in p.pending || n in tx.spends
    requires forall n :: n in q.pending ==> q.pending[n] == if n in tx.spends then id else p.pending[n]
    ensures Reserved(spent, q) && Owned(q)
  {
  }

  lemma InsertKeepsInv(env: Env, spent: map<Hash32, nat>, p: Pool, tx: Transaction)
    requires PoolInv(env, spent, p)
    ensures PoolInv(env, spent, Insert(env, spent, p, tx).0)
  {
    hide Conflict, Reserve, NoSharing, Reserved, Owned, FormatError;
    var (q, r) := Insert(env, spent, p, tx);
    if r.Ok? {
      ConflictIff(spent, p.pending, tx.spends);
      ReserveEffect(p.pending, tx.spends, env.txId(tx));
      EnterNoSharing(spent, p, q, env.txId(tx), tx);
      EnterReserved(spent, p, q, env.txId(tx), tx);
    }
  }

  /** The spent set only grows when blocks are applied, refused or pruned. */
  lemma MoreSpentKeepsInv(env: Env, spent: map<Hash32, nat>, after: map<Hash32, nat>, p: Pool)
    requires PoolInv(env, spent, p) && forall n :: n in spent ==> n in after
    ensures PoolInv(env, after, p)
  {
  }

  /** Cleaning up after a block needs its nullifiers to be spent, and ids that
      stand for one transaction among the pool and the block. */
  lemma RemoveMinedKeepsInv(env: Env, spent: map<Hash32, nat>, p: Pool, txs: seq<Transaction>)
    requires PoolInv(env, spent, p) && forall n :: n in Spends(txs) ==> n in spent
    requires forall a, tx :: a in p.txs && tx in txs && env.txId(tx) == a ==> p.txs[a] == tx
    ensures PoolInv(env, spent, RemoveMined(env, p, txs))
  {
    hide RemoveMined, Spends;
    var q := RemoveMined(env, p, txs);
    RemoveMinedEffect(env, p, txs);
    assert Reserved(spent, q);
    forall n | n in q.pending
      ensures q.pending[n] in q.txs && n in q.txs[q.pending[n]].spends
    {
      var a := p.pending[n];
      if a in TxIds(env.txId, txs) {
        var i :| 0 <= i < |txs| && env.txId(txs[i]) == a;
        assert txs[i] in txs && p.txs[a] == txs[i];
        SpendsContain(txs, txs[i], n);
      }
    }
  }

  // -------------------------------------------------- pool and ledger together

  /** A node's store with its history, and its pool. */
  datatype Sys = Sys(history: History, pool: Pool)

  /** A block is applied on commit or sync; the pool is cleaned up only when the
      application went through, and even then not always. */
  datatype PoolAction =
    | Submit(tx: Transaction)
    | Ledger(op: Op, cleanUp: bool)

  function Act(env: Env, s: Sys, a: PoolAction): Sys {
    match a
    case Submit(tx) => s.(pool := Insert(env, s.history.store.nullifiers, s.pool, tx).0)
    case Ledger(op, cleanUp) =>
      var after := Step(env, s.history, op);
      var mined := cleanUp && op.Apply? && after.applied != s.history.applied;
      Sys(after, if mined then RemoveMined(env, s.pool, op.block.transactions) else s.pool)
  }

  function ActAll(env: Env, s: Sys, actions: seq<PoolAction>): Sys
    decreases |actions|
  {
    if actions == [] then s else ActAll(env, Act(env, s, actions[0]), actions[1..])
  }

  /** Within `txs` an id stands for one transaction. */
  ghost predicate IdsUnique(env: Env, txs: set<Transaction>) {
    forall a, b :: a in txs && b in txs && env.txId(a) == env.txId(b) ==> a == b
  }

  predicate ActionIn(a: PoolAction, txs: set<Transaction>) {
    match a
    case Submit(tx) => tx in txs
    case Ledger(op, _) => op.Apply? ==> forall tx :: tx in op.block.transactions ==> tx in txs
  }

  ghost predicate SysInv(env: Env, s: Sys, txs: set<Transaction>) {
    && Inv(env, s.history) && PoolInv(env, s.history.store.nullifiers, s.pool)
    && forall id :: id in s.pool.txs ==> s.pool.txs[id] in txs
  }

  lemma StepSpent(env: Env, h: History, op: Op)
    requires Inv(env, h)
    ensures var g := Step(env, h, op);
            && (forall n :: n in h.store.nullifiers ==> n in g.store.nullifiers)
            && (op.Apply? && g.applied != h.applied ==>
                  forall n :: n in Spends(op.block.transactions) ==> n in g.store.nullifiers)
  {
    hide SpentInv, LeavesInv, AnchorsInv, Step, Seal, Written, Distinct;
    match op
    case Apply(block, changes, added) =>
      if block.header.height == ExpectedHeight(h.store) {
        var _, t := ApplyEffect(env, h, block, changes, added);
        SealKeeps(env, t, block, changes, added);
      } else {
        RefusedHeight(env, h, block, changes, added);
      }
    case Prune(keepLast) =>
      PruneSpent(env, h, keepLast);
  }

  lemma PruneSpent(env: Env, h: History, keepLast: nat)
    ensures Step(env, h, Prune(keepLast)).store.nullifiers == h.store.nullifiers
  {
    PruneKeeps(env, h.store, keepLast);
  }

  lemma ActKeepsInv(env: Env, s: Sys, a: PoolAction, txs: set<Transaction>)
    requires SysInv(env, s, txs) && ActionIn(a, txs) && IdsUnique(env, txs)
    ensures SysInv(env, Act(env, s, a), txs)
  {
    hide Inv, PoolInv, Step, RemoveMined;
    match a
    case Submit(tx) =>
      InsertKeepsInv(env, s.history.store.nullifiers, s.pool, tx);
    case Ledger(op, cleanUp) =>
      var g := Step(env, s.history, op);
      StepKeepsInv(env, s.history, op);
      StepSpent(env, s.history, op);
      MoreSpentKeepsInv(env, s.history.store.nullifiers, g.store.nullifiers, s.pool);
      if cleanUp && op.Apply? && g.applied != s.history.applied {
        PoolKeyed(env, s.history.store.nullifiers, s.pool);
        RemoveMinedKeepsInv(env, g.store.nullifiers, s.pool, op.block.transactions);
        RemoveMinedEffect(env, s.pool, op.block.transactions);
      }
  }

  lemma PoolKeyed(env: Env, spent: map<Hash32, nat>, p: Pool)
    requires PoolInv(env, spent, p)
    ensures Keyed(env, p)
  {
  }

  lemma {:induction false} ActAllKeepsInv(env: Env, s: Sys, actions: seq<PoolAction>, txs: set<Transaction>)
    requires SysInv(env, s, txs) && IdsUnique(env, txs)
    requires forall i :: 0 <= i < |actions| ==> ActionIn(actions[i], txs)
    ensures SysInv(env, ActAll(env, s, actions), txs)
    decreases |actions|
  {
    hide SysInv, Act;
    if actions != [] {
      ActKeepsInv(env, s, actions[0], txs);
      ActAllKeepsInv(env, Act(env, s, actions[0]), actions[1..], txs);
    }
  }

  /** Pool and ledger: over every interleaving of submissions, block applications
      that succeed or fail, prunings and clean-ups, pool transactions never share a
      nullifier, each of their nullifiers is reserved for them or already spent,
      and no reservation outlives its owner. */
  lemma PoolOverRuns(env: Env, actions: seq<PoolAction>, txs: set<Transaction>)
    requires IdsUnique(env, txs) && forall i :: 0 <= i < |actions| ==> ActionIn(actions[i], txs)
    ensures var s := ActAll(env, Sys(GENESIS, EMPTY_POOL), actions);
            PoolInv(env, s.history.store.nullifiers, s.pool)
  {
    GenesisInv(env);
    ActAllKeepsInv(env, Sys(GENESIS, EMPTY_POOL), actions, txs);
  }

  /** Cleaning up after a block frees its nullifiers whoever they were reserved for:
      a pool transaction in conflict with the block stays without its reservation,
      and from then on only the spent set keeps a second one out. */
  lemma CleanUpFreesAnothersNullifier(env: Env, spent: map<Hash32, nat>, p: Pool, mined: Transaction, id: Hash32,
          n: Hash32)
    requires PoolInv(env, spent, p) && id in p.txs && n in p.txs[id].spends && n !in spent
    requires n in mined.spends && env.txId(mined) != id
    ensures p.pending[n] == id
    ensures var q := RemoveMined(env, p, [mined]); id in q.txs && n !in q.pending
  {
    RemoveMinedEffect(env, p, [mined]);
    assert TxIds(env.txId, [mined]) == {env.txId(mined)};
  }

  // --------------------------------------------------------------- the class

  class PrivateMempool {
    const env: Env
    const state: StateStore
    var txs: map<Hash32, Transaction>
    var pending: map<Hash32, Hash32>

    function State(): Pool
      reads this
    {
      Pool(txs, pending)
    }

    constructor (env: Env, state: StateStore)
      ensures State() == EMPTY_POOL && this.env == env && this.state == state
    {
      this.env, this.state, txs, pending := env, state, map[], map[];
    }

    method Submit(tx: Transaction) returns (r: Result<(), MempoolError>)
      modifies this
      ensures (State(), r) == Insert(env, state.nullifiers.spent, old(State()), tx)
    {
      if |txs| >= MAX_MEMPOOL_SIZE {
        return Err(Full);
      }
      var id := env.txId(tx);
      if id in txs {
        return Err(AlreadyExists);
      }
      var format := FormatError(env, tx);
      if format.Some? {
        return Err(InvalidFormat(format.value));
      }
      if tx.fee < MIN_FEE {
        return Err(FeeTooLow);
      }
      for i := 0 to |tx.spends|
        invariant Conflict(state.nullifiers.spent, pending, tx.spends[i..])
            == Conflict(state.nullifiers.spent, pending, tx.spends)
        invariant State() == old(State())
      {
        assert tx.spends[i..][1..] == tx.spends[i + 1..];
        if state.nullifiers.Contains(tx.spends[i]) {
          return Err(AlreadySpent);
        }
        if tx.spends[i] in pending {
          return Err(MempoolError.DoubleSpend);
        }
      }
      for i := 0 to |tx.spends|
        invariant Reserve(pending, tx.spends[i..], id) == Reserve(old(pending), tx.spends, id)
        invariant txs == old(txs)
      {
        assert tx.spends[i..][1..] == tx.spends[i + 1..];
        pending := pending[tx.spends[i] := id];
      }
      txs := txs[id := tx];
      return Ok(());
    }

    /** `order` is the order in which the shuffle leaves the pool's keys. */
    method SelectForBlock(order: seq<Hash32>, maxTxs: nat, maxGas: nat) returns (selected: seq<Transaction>)
      ensures selected == Select(env, State(), order, maxTxs, maxGas)
    {
      var candidates := Sorting.Sort(HigherFee, Candidates(env, State(), order));
      selected := [];
      var totalGas: nat := 0;
      var i := 0;
      while i < |candidates|
        invariant i <= |candidates|
        invariant selected + Pack(candidates[i..], maxTxs, maxGas, |selected|, totalGas)
            == Pack(candidates, maxTxs, maxGas, 0, 0)
      {
        assert candidates[i..][1..] == candidates[i + 1..];
        if |selected| >= maxTxs {
          break;
        }
        var tx := candidates[i];
        i := i + 1;
        if totalGas + tx.gasLimit > maxGas {
          continue;
        }
        totalGas := totalGas + tx.gasLimit;
        selected := selected + [tx];
      }
    }

    method CleanUp(mined: seq<Transaction>)
      modifies this
      ensures State() == RemoveMined(env, old(State()), mined)
    {
      for i := 0 to |mined|
        invariant RemoveMined(env, State(), mined[i..]) == RemoveMined(env, old(State()), mined)
      {
        assert mined[i..][1..] == mined[i + 1..];
        var spends := mined[i].spends;
        ghost var before := pending;
        txs := txs - {env.txId(mined[i])};
        ghost var left := txs;
        for j := 0 to |spends|
          invariant Release(pending, spends[j..]) == Release(before, spends)
          invariant txs == left
        {
          assert spends[j..][1..] == spends[j + 1..];
          pending := pending - {spends[j]};
        }
      }
    }
  }
}
