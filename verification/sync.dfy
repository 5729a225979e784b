/** Block download: the sync manager, the two sides of an exchange, and why a
    download ends. */
module Sync {
  import opened Types
  import opened Ledger
  import opened Chain
  import opened Pruning
  import Contracts
  import Execution
  import Mempool

  type Peer = Hash32

  datatype SyncRequest = SyncRequest(startHeight: nat, limit: nat)

  const SYNC_LIMIT: nat := 50

  datatype Manager = Manager(isSyncing: bool, target: nat, request: Option<(Peer, SyncRequest)>, peers: set<Peer>)

  function StartSync(m: Manager, target: nat, peer: Peer, start: nat): (Manager, SyncRequest) {
    var req := SyncRequest(start, SYNC_LIMIT);
    (m.(isSyncing := true, target := if target > m.target then target else m.target, request := Some((peer, req))), req)
  }

  function CheckStatus(m: Manager, height: nat): Manager {
    if m.isSyncing && height >= m.target then m.(isSyncing := false, request := None) else m
  }

  function HandlePeerHeight(m: Manager, peer: Peer, peerHeight: nat, height: nat): (Manager, Option<SyncRequest>) {
    var seen := m.(peers := m.peers + {peer});
    if peerHeight > height + 5 && !m.isSyncing then
      var (started, req) := StartSync(seen, peerHeight, peer, height + 1);
      (started, Some(req))
    else (seen, None)
  }

  predicate ManagerInv(m: Manager) {
    (m.isSyncing <==> m.request.Some?) && (m.request.Some? ==> m.request.value.1.limit == SYNC_LIMIT)
  }

  class SyncManager {
    var isSyncing: bool
    var target: nat
    var request: Option<(Peer, SyncRequest)>
    var peers: set<Peer>

    function State(): Manager
      reads this
    {
      Manager(isSyncing, target, request, peers)
    }

    /** A request is kept exactly while syncing. */
    predicate Valid()
      reads this
    {
      ManagerInv(State())
    }

    constructor ()
      ensures Valid() && State() == Manager(false, 0, None, {})
    {
      isSyncing, target, request, peers := false, 0, None, {};
    }

    method Start(targetHeight: nat, peer: Peer, startHeight: nat) returns (req: SyncRequest)
      modifies this
      ensures Valid() && (State(), req) == StartSync(old(State()), targetHeight, peer, startHeight)
      ensures isSyncing && target >= old(target) && target >= targetHeight && target in {old(target), targetHeight}
      ensures req == SyncRequest(startHeight, 50) && request == Some((peer, req)) && peers == old(peers)
    {
      isSyncing := true;
      target := if targetHeight > target then targetHeight else target;
      req := SyncRequest(startHeight, SYNC_LIMIT);
      request := Some((peer, req));
    }

    method Check(height: nat) returns (syncing: bool)
      requires Valid()
      modifies this
      ensures Valid() && State() == CheckStatus(old(State()), height) && syncing == isSyncing
      ensures syncing <==> old(isSyncing) && height < target
    {
      if isSyncing && height >= target {
        isSyncing := false;
        request := None;
      }
      return isSyncing;
    }

    method PeerHeight(peer: Peer, peerHeight: nat, height: nat) returns (req: Option<SyncRequest>)
      requires Valid()
      modifies this
      ensures Valid() && (State(), req) == HandlePeerHeight(old(State()), peer, peerHeight, height)
      ensures req.Some? <==> !old(isSyncing) && peerHeight > height + 5
      ensures peers == old(peers) + {peer}
      ensures req.Some? ==> req == Some(SyncRequest(height + 1, 50)) && request == Some((peer, req.value)) && isSyncing
      ensures req.Some? ==> target >= peerHeight && target in {old(target), peerHeight}
      ensures req.None? ==> isSyncing == old(isSyncing) && target == old(target) && request == old(request)
    {
      peers := peers + {peer};
      if peerHeight > height + 5 && !isSyncing {
        var r := Start(peerHeight, peer, height + 1);
        return Some(r);
      }
      return None;
    }
  }

  // ------------------------------------------------------------ serving a peer

  /** Blocks from `h` up to `end`, stopping at the first that cannot be read. */
  function ServeFrom(s: Store, h: nat, end: nat): seq<Block>
    decreases end - h
  {
    if h >= end || GetBlockByHeight(s, h).None? then []
    else [GetBlockByHeight(s, h).value] + ServeFrom(s, h + 1, end)
  }

  function Min(a: nat, b: nat): nat {
    if a < b then a else b
  }

  function Serve(s: Store, req: SyncRequest): seq<Block> {
    ServeFrom(s, req.startHeight, Min(req.startHeight + req.limit, ChainHeight(s) + 1))
  }

  method AnswerRequest(store: StateStore, req: SyncRequest) returns (blocks: seq<Block>)
    requires store.Valid()
    ensures blocks == Serve(store.State(), req)
  {
    blocks := [];
    var chainHeight := store.GetChainHeight();
    var end := Min(req.startHeight + req.limit, chainHeight + 1);
    var h := req.startHeight;
    while h < end
      invariant blocks + ServeFrom(store.State(), h, end) == Serve(store.State(), req)
    {
      var block := GetBlockByHeight(store.State(), h);
      if block.None? {
        break;
      }
      blocks := blocks + [block.value];
      h := h + 1;
    }
  }

  // --------------------------------------------------------- taking blocks in

  /** The step of the chain that executing an admitted block amounts to. */
  function AsOp(l: Execution.Local, s: Store, block: Block): Op {
    var c := Contracts.Phase(l.runtime, s, block.transactions);
    Apply(block, c.changes, c.added)
  }

  /** Execute the blocks from the engine's height on. */
  function Download(env: Env, l: Execution.Local, s: Store, p: Mempool.Pool, blocks: seq<Block>, height: nat)
    : (Store, Mempool.Pool)
    decreases |blocks|
  {
    if blocks == [] then (s, p)
    else
      var (t, q) :=
        if blocks[0].header.height >= height then Execution.ExecuteBlock(env, l, s, p, blocks[0]) else (s, p);
      Download(env, l, t, q, blocks[1..], height)
  }

  /** The same on a store with its history, which the pool does not matter to. */
  function TakeIn(env: Env, l: Execution.Local, h: History, blocks: seq<Block>, height: nat): History
    decreases |blocks|
  {
    if blocks == [] then h
    else
      var b := blocks[0];
      var g :=
        if b.header.height >= height && Execution.Admits(env, l, b) then Step(env, h, AsOp(l, h.store, b)) else h;
      TakeIn(env, l, g, blocks[1..], height)
  }

  lemma {:induction false} DownloadTakesIn(env: Env, l: Execution.Local, h: History, p: Mempool.Pool,
          blocks: seq<Block>, height: nat)
    ensures Download(env, l, h.store, p, blocks, height).0 == TakeIn(env, l, h, blocks, height).store
    decreases |blocks|
  {
    hide Execution.Admits, Contracts.Phase, ApplyBlock;
    if blocks != [] {
      var b := blocks[0];
      var q := if b.header.height >= height then Execution.ExecuteBlock(env, l, h.store, p, b).1 else p;
      var g :=
        if b.header.height >= height && Execution.Admits(env, l, b) then Step(env, h, AsOp(l, h.store, b)) else h;
      DownloadTakesIn(env, l, g, q, blocks[1..], height);
    }
  }

  /** A response arrives: while syncing, take its blocks in, look whether the target is
      reached, and if not ask the same peer for what follows the chain. */
  function Respond(env: Env, l: Execution.Local, s: Store, p: Mempool.Pool, m: Manager, blocks: seq<Block>, height: nat)
    : (Store, Mempool.Pool, Manager, Option<(Peer, SyncRequest)>)
  {
    if !m.isSyncing then (s, p, m, None)
    else
      var (t, q) := Download(env, l, s, p, blocks, height);
      var k := CheckStatus(m, ChainHeight(t));
      (t, q, k, if k.isSyncing then NextRequest(k, ChainHeight(t)) else None)
  }

  function NextRequest(m: Manager, height: nat): Option<(Peer, SyncRequest)> {
    if m.request.None? then None else Some((m.request.value.0, m.request.value.1.(startHeight := height + 1)))
  }

  method ReceiveBlocks(l: Execution.Local, store: StateStore, pool: Mempool.PrivateMempool, blocks: seq<Block>,
          height: nat)
    requires store.Valid() && pool.env == store.env
    modifies store.Parts(), pool
    ensures store.Valid()
    ensures (store.State(), pool.State())
         == Download(store.env, l, old(store.State()), old(pool.State()), blocks, height)
  {
    for i := 0 to |blocks|
      invariant store.Valid()
      invariant Download(store.env, l, store.State(), pool.State(), blocks[i..], height)
             == Download(store.env, l, old(store.State()), old(pool.State()), blocks, height)
    {
      assert blocks[i..][1..] == blocks[i + 1..];
      if blocks[i].header.height >= height {
        Execution.ExecuteAndApply(l, store, pool, blocks[i]);
      }
    }
  }

  /** The response arm. The engine leaves its loop when no request is kept although the
      manager is syncing; that never happens, so syncing means there is a next request. */
  method ReceiveResponse(l: Execution.Local, store: StateStore, pool: Mempool.PrivateMempool, manager: SyncManager,
          blocks: seq<Block>, height: nat) returns (next: Option<(Peer, SyncRequest)>)
    requires store.Valid() && pool.env == store.env && manager.Valid()
    modifies store.Parts(), pool, manager
    ensures store.Valid() && manager.Valid()
    ensures (store.State(), pool.State(), manager.State(), next)
         == Respond(store.env, l, old(store.State()), old(pool.State()), old(manager.State()), blocks, height)
    ensures next.Some? <==> manager.isSyncing
    ensures next.Some? ==> next.value.1 == SyncRequest(ChainHeight(store.State()) + 1, 50)
    ensures next.Some? ==> manager.request.Some? && next.value.0 == manager.request.value.0
  {
    next := None;
    if manager.isSyncing {
      ReceiveBlocks(l, store, pool, blocks, height);
      var chainHeight := store.GetChainHeight();
      var syncing := manager.Check(chainHeight);
      if syncing {
        next := NextRequest(manager.State(), chainHeight);
      }
    }
  }

  /** One exchange, on a store with its history: ask for the blocks after the own chain,
      and take the answer in. */
  function Exchange(env: Env, l: Execution.Local, node: History, m: Manager, peer: Store, height: nat)
    : (History, Manager)
  {
    if !m.isSyncing then (node, m)
    else
      var blocks := Serve(peer, SyncRequest(ChainHeight(node.store) + 1, SYNC_LIMIT));
      var after := TakeIn(env, l, node, blocks, height);
      (after, CheckStatus(m, ChainHeight(after.store)))
  }

  /** An exchange is what the response arm does with what the peer serves, whatever is
      in the pool. */
  lemma ExchangeIsResponse(env: Env, l: Execution.Local, node: History, p: Mempool.Pool, m: Manager, peer: Store,
          height: nat)
    ensures var blocks := Serve(peer, SyncRequest(ChainHeight(node.store) + 1, SYNC_LIMIT));
            var r := Respond(env, l, node.store, p, m, blocks, height);
            var (after, k) := Exchange(env, l, node, m, peer, height);
            after.store == r.0 && k == r.2
  {
    var blocks := Serve(peer, SyncRequest(ChainHeight(node.store) + 1, SYNC_LIMIT));
    DownloadTakesIn(env, l, node, p, blocks, height);
  }

  function Exchanges(env: Env, l: Execution.Local, node: History, m: Manager, peer: Store, height: nat, n: nat)
    : (History, Manager)
  {
    if n == 0 then (node, m)
    else
      var (before, k) := Exchanges(env, l, node, m, peer, height, n - 1);
      Exchange(env, l, before, k, peer, height)
  }

  // --------------------------------------------------------------- why it ends

  /** No nullifier that the chain has still to spend is spent at the node already. */
  ghost predicate Unburned(node: History, chain: seq<Block>) {
    forall n :: n in node.store.nullifiers && n in ChainSpends(chain) ==> n in ChainSpends(node.applied)
  }

  /** The node's chain is the first `m` blocks of `chain`. */
  ghost predicate Follows(env: Env, node: History, chain: seq<Block>, m: nat) {
    0 < m <= |chain| && node.applied == chain[..m] && Inv(env, node) && Unburned(node, chain)
  }

  lemma {:induction false} SpendsInChain(chain: seq<Block>, m: nat, n: Hash32)
    requires m < |chain| && n in Spends(chain[m].transactions)
    ensures n in ChainSpends(chain)
    decreases |chain|
  {
    var last := |chain| - 1;
    if m < last {
      SpendsInChain(chain[..last], m, n);
    }
  }

  lemma {:induction false} SpendsOfPrefix(chain: seq<Block>, m: nat)
    requires m < |chain| && Distinct(ChainSpends(chain))
    ensures var before, next := ChainSpends(chain[..m]), Spends(chain[m].transactions);
            Distinct(next) && forall n :: n in next ==> n !in before
    decreases |chain|
  {
    var last := |chain| - 1;
    assert chain == chain[..last] + [chain[last]];
    DistinctConcat(ChainSpends(chain[..last]), Spends(chain[last].transactions));
    if m < last {
      SpendsOfPrefix(chain[..last], m);
      assert chain[..last][..m] == chain[..m];
    }
  }

  lemma AppliesUnburned(env: Env, h: History, chain: seq<Block>, b: Block, changes: map<Bytes, Bytes>,
          added: seq<(Hash32, Bytes)>)
    requires LeavesInv(env, h) && b.header.height == ExpectedHeight(h.store) && Unburned(h, chain)
    requires Distinct(Spends(b.transactions)) && Disjoint(Spends(b.transactions), h.store.nullifiers)
    ensures var g := Step(env, h, Apply(b, changes, added)); g.applied == h.applied + [b] && Unburned(g, chain)
  {
    hide LeavesInv, Distinct, Step, Seal, Written, Spends, ChainSpends, Indexed;
    var after, t := ApplyEffect(env, h, b, changes, added);
    SealKeeps(env, t, b, changes, added);
    ChainLast(h.applied, b);
  }

  /** A node that follows a double-spend-free chain accepts its next block. */
  lemma AcceptsNext(env: Env, l: Execution.Local, node: History, chain: seq<Block>, m: nat)
    requires Follows(env, node, chain, m) && m < |chain|
    requires Distinct(ChainSpends(chain)) && chain[m].header.height == m
    ensures Follows(env, Step(env, node, AsOp(l, node.store, chain[m])), chain, m + 1)
  {
    hide Inv, Distinct, Step, Spends, ChainSpends, LeavesInv;
    var b := chain[m];
    var op := AsOp(l, node.store, b);
    var (changes, added) := (op.changes, op.added);
    SpendsOfPrefix(chain, m);
    forall n | n in Spends(b.transactions)
      ensures n !in node.store.nullifiers
    {
      SpendsInChain(chain, m, n);
    }
    StepKeepsInv(env, node, Apply(b, changes, added));
    NodeFacts(env, node);
    AppliesUnburned(env, node, chain, b, changes, added);
    assert chain[..m + 1] == chain[..m] + [b];
  }

  lemma NodeFacts(env: Env, node: History)
    requires Inv(env, node) && |node.applied| > 0
    ensures LeavesInv(env, node) && ExpectedHeight(node.store) == |node.applied|
    ensures ChainHeight(node.store) == |node.applied| - 1
  {
  }

  lemma {:induction false} ServesChain(env: Env, s: Store, chain: seq<Block>, low: nat, h: nat, end: nat)
    requires Serves(env, s, chain, low) && h <= end <= |chain|
    ensures ServeFrom(s, h, end) == if low <= h then chain[h..end] else []
    decreases end - h
  {
    if h < end {
      hide ServesTxs, GetBlock;
      ReadsHeight(env, s, chain, low, h);
      ServesChain(env, s, chain, low, h + 1, end);
      assert chain[h..end] == [chain[h]] + chain[h + 1..end];
    }
  }

  lemma ReadsHeight(env: Env, s: Store, chain: seq<Block>, low: nat, h: nat)
    requires Serves(env, s, chain, low) && h < |chain|
    ensures GetBlockByHeight(s, h) == if low <= h then Some(chain[h]) else None
  {
    assert ServesBlock(env, s, chain[h], h >= low);
  }

  /** The peer's blocks from `m` on pass the node's checks, and have their heights. */
  predicate Passes(env: Env, l: Execution.Local, chain: seq<Block>, m: nat) {
    forall k :: m <= k < |chain| ==> Execution.Admits(env, l, chain[k]) && chain[k].header.height == k
  }

  lemma {:induction false} TakesInChain(env: Env, l: Execution.Local, node: History, chain: seq<Block>, m: nat,
          end: nat, height: nat)
    requires Follows(env, node, chain, m) && m <= end <= |chain| && height <= m
    requires Distinct(ChainSpends(chain)) && Passes(env, l, chain, m)
    ensures Follows(env, TakeIn(env, l, node, chain[m..end], height), chain, end)
    decreases end - m
  {
    hide Step, AsOp, Distinct, ChainSpends;
    if m < end {
      assert chain[m..end] == [chain[m]] + chain[m + 1..end];
      AcceptsNext(env, l, node, chain, m);
      TakesInChain(env, l, Step(env, node, AsOp(l, node.store, chain[m])), chain, m + 1, end, height);
    }
  }

  /** A peer the node can catch up from: its chain is free of double spends, and its
      store serves it from a height the node has reached. */
  ghost predicate Source(env: Env, l: Execution.Local, peer: Store, chain: seq<Block>, low: nat, m: nat) {
    && Serves(env, peer, chain, low) && low <= m
    && peer.chainHeight == Some(|chain| - 1)
    && Distinct(ChainSpends(chain)) && Passes(env, l, chain, m)
  }

  /** One exchange gains the next fifty blocks of the peer, or as many as it has. */
  lemma ExchangeGains(env: Env, l: Execution.Local, node: History, m: Manager, peer: Store, chain: seq<Block>, low: nat,
          at: nat, height: nat)
    requires Follows(env, node, chain, at) && Source(env, l, peer, chain, low, at)
    requires height <= at && m.isSyncing
    ensures var (after, k) := Exchange(env, l, node, m, peer, height);
            var gained := Min(SYNC_LIMIT, |chain| - at);
            && Follows(env, after, chain, at + gained)
            && k == CheckStatus(m, at + gained - 1)
  {
    hide Serves, Distinct, ChainSpends, ServeFrom, TakeIn, Inv, Unburned;
    var end := Min(at + SYNC_LIMIT, |chain|);
    NodeHeight(env, node, chain, at);
    ServesChain(env, peer, chain, low, at, end);
    TakesInChain(env, l, node, chain, at, end, height);
    NodeHeight(env, TakeIn(env, l, node, chain[at..end], height), chain, end);
  }

  lemma NodeHeight(env: Env, node: History, chain: seq<Block>, at: nat)
    requires Follows(env, node, chain, at)
    ensures ChainHeight(node.store) == at - 1
  {
  }

  /** What a pruned peer gives: nothing, so the exchange leaves the node where it
      was and the node keeps asking for the same blocks. */
  lemma PrunedPeerStalls(env: Env, l: Execution.Local, node: History, m: Manager, peer: Store, chain: seq<Block>,
          low: nat, at: nat, height: nat)
    requires Follows(env, node, chain, at) && Serves(env, peer, chain, low) && at < low
    requires peer.chainHeight == Some(|chain| - 1) && m.isSyncing && at <= m.target
    ensures Exchange(env, l, node, m, peer, height) == (node, m)
  {
    hide Serves, ServeFrom, Inv, Unburned;
    NodeHeight(env, node, chain, at);
    ServesChain(env, peer, chain, low, at, Min(at + SYNC_LIMIT, |chain|));
  }

  /** The number of exchanges that reach the target from `at` blocks. */
  function Needed(target: nat, at: nat): nat {
    if target < at then 0 else (target - (at - 1) + SYNC_LIMIT - 1) / SYNC_LIMIT
  }

  /** Sync termination. A node that follows the peer's chain up to `at` blocks and
      aims at a height the peer has is, after n exchanges, fifty blocks further for
      each until the target is reached (or at the peer's tip), still on that chain;
      and it is syncing exactly until ceil((target - height) / 50) are done. */
  lemma {:induction false} SyncEnds(env: Env, l: Execution.Local, node: History, m: Manager, peer: Store,
          chain: seq<Block>, low: nat, at: nat, height: nat, n: nat)
    requires Follows(env, node, chain, at) && Source(env, l, peer, chain, low, at) && height <= at
    requires m.isSyncing && ManagerInv(m) && at <= m.target < |chain|
    ensures var (after, k) := Exchanges(env, l, node, m, peer, height, n);
            var done := Min(n, Needed(m.target, at));
            && Follows(env, after, chain, Min(at + SYNC_LIMIT * done, |chain|))
            && (k.isSyncing <==> n < Needed(m.target, at)) && ManagerInv(k) && k.target == m.target
    decreases n
  {
    hide Follows, Serves, Distinct, ChainSpends, Exchange;
    if n > 0 {
      SyncEnds(env, l, node, m, peer, chain, low, at, height, n - 1);
      var (before, k) := Exchanges(env, l, node, m, peer, height, n - 1);
      if k.isSyncing {
        var now := at + SYNC_LIMIT * (n - 1);
        assert now <= m.target;
        ExchangeGains(env, l, before, k, peer, chain, low, now, height);
      } else {
        IdleExchange(env, l, before, k, peer, height);
      }
    }
  }

  /** From the announcement on. A node that follows the peer's chain and hears of a height
      more than five above its own asks for the fifty blocks after its chain, is served
      just these, and has caught up with the higher of the announced and the earlier target
      after ceil((target - height) / 50) exchanges, and not before. */
  lemma CatchesUp(env: Env, l: Execution.Local, node: History, m: Manager, id: Peer, announced: nat, peer: Store,
          chain: seq<Block>, low: nat, at: nat, height: nat, n: nat)
    requires Follows(env, node, chain, at) && Source(env, l, peer, chain, low, at) && height <= at
    requires !m.isSyncing && ManagerInv(m) && announced > ChainHeight(node.store) + 5
    requires announced < |chain| && m.target < |chain|
    ensures var target := if m.target > announced then m.target else announced;
            var (started, req) := HandlePeerHeight(m, id, announced, ChainHeight(node.store));
            var (after, k) := Exchanges(env, l, node, started, peer, height, n);
            && req == Some(SyncRequest(at, 50))
            && Serve(peer, req.value) == chain[at..Min(at + 50, |chain|)]
            && after.applied == chain[..Min(at + 50 * Min(n, (target - at + 50) / 50), |chain|)]
            && (k.isSyncing <==> n < (target - at + 50) / 50)
  {
    var (started, req) := HandlePeerHeight(m, id, announced, ChainHeight(node.store));
    hide Serves, ServeFrom, TakeIn, Inv, Unburned, Exchanges;
    NodeHeight(env, node, chain, at);
    ServesChain(env, peer, chain, low, at, Min(at + 50, |chain|));
    SyncEnds(env, l, node, started, peer, chain, low, at, height, n);
  }

  lemma IdleExchange(env: Env, l: Execution.Local, node: History, m: Manager, peer: Store, height: nat)
    requires !m.isSyncing
    ensures Exchange(env, l, node, m, peer, height) == (node, m)
  {
  }

  // ----------------------------------------------------- when it does not end

  /** The node stands at `m` blocks of the chain, and the next one spends a nullifier
      that is spent at the node already, as a block refused half way can leave it. */
  ghost predicate Burned(env: Env, node: History, chain: seq<Block>, m: nat) {
    && 0 < m < |chain| && node.applied == chain[..m] && Inv(env, node)
    && exists n :: n in Spends(chain[m].transactions) && n in node.store.nullifiers
  }

  /** The next block of the chain is accepted exactly when it is not burned. */
  lemma AcceptsNextIff(env: Env, l: Execution.Local, node: History, chain: seq<Block>, m: nat)
    requires Inv(env, node) && 0 < m < |chain| && node.applied == chain[..m]
    requires Distinct(ChainSpends(chain)) && chain[m].header.height == m
    ensures Step(env, node, AsOp(l, node.store, chain[m])).applied == chain[..m + 1] <==> !Burned(env, node, chain, m)
  {
    hide Inv, Distinct, Spends, ChainSpends, ApplyBlock;
    var op := AsOp(l, node.store, chain[m]);
    var (changes, added) := (op.changes, op.added);
    SpendsOfPrefix(chain, m);
    NodeFacts(env, node);
    Accepted(env, node.store, chain[m], changes, added);
    assert chain[..m + 1] == chain[..m] + [chain[m]];
  }

  /** A block that is not next, or that spends a spent nullifier, is not applied. */
  lemma Refuses(env: Env, node: History, b: Block, changes: map<Bytes, Bytes>, added: seq<(Hash32, Bytes)>)
    requires b.header.height != ExpectedHeight(node.store)
             || exists n :: n in Spends(b.transactions) && n in node.store.nullifiers
    ensures Step(env, node, Apply(b, changes, added)).applied == node.applied
  {
    Accepted(env, node.store, b, changes, added);
  }

  /** Whatever the node is given later, it never gets past that block on this chain:
      if it applies a block at that height at all, it is another one. */
  lemma {:induction false} BurnedForEver(env: Env, node: History, chain: seq<Block>, m: nat, ops: seq<Op>)
    requires Burned(env, node, chain, m)
    ensures var h := Run(env, node, ops);
            |h.applied| > m ==> h.applied[..m] == chain[..m] && h.applied[m] != chain[m]
    decreases |ops|
  {
    hide Spends, ChainSpends, SpentInv, LeavesInv, AnchorsInv;
    if ops != [] {
      var after := Step(env, node, ops[0]);
      StepGrows(env, node, ops[0]);
      if after.applied == node.applied {
        BurnedForEver(env, after, chain, m, ops[1..]);
      } else {
        RunExtends(env, after, ops[1..]);
        if ops[0].block == chain[m] {
          Refuses(env, node, ops[0].block, ops[0].changes, ops[0].added);
        }
      }
    }
  }

  /** A step keeps the invariant and what is spent, and appends at most its block. */
  lemma StepGrows(env: Env, h: History, op: Op)
    requires Inv(env, h)
    ensures var g := Step(env, h, op);
            && Inv(env, g) && (forall n :: n in h.store.nullifiers ==> n in g.store.nullifiers)
            && (g.applied == h.applied || (op.Apply? && g.applied == h.applied + [op.block]))
  {
    hide SpentInv, LeavesInv, AnchorsInv, Seal, Written, Distinct;
    StepKeepsInv(env, h, op);
    match op
    case Apply(block, changes, added) =>
      if block.header.height == ExpectedHeight(h.store) {
        hide Step;
        var _, t := ApplyEffect(env, h, block, changes, added);
        SealKeeps(env, t, block, changes, added);
      } else {
        RefusedHeight(env, h, block, changes, added);
      }
    case Prune(keepLast) =>
      PruneKeeps(env, h.store, keepLast);
  }

  lemma {:induction false} RunExtends(env: Env, h: History, ops: seq<Op>)
    requires Inv(env, h)
    ensures h.applied <= Run(env, h, ops).applied
    decreases |ops|
  {
    hide Inv, Step;
    if ops != [] {
      StepGrows(env, h, ops[0]);
      RunExtends(env, Step(env, h, ops[0]), ops[1..]);
    }
  }

  lemma {:induction false} BurnedTakesNothing(env: Env, l: Execution.Local, node: History, chain: seq<Block>, m: nat,
          from: nat, end: nat, height: nat)
    requires Burned(env, node, chain, m) && m <= from <= end <= |chain|
    requires forall k :: m <= k < |chain| ==> chain[k].header.height == k
    ensures Burned(env, TakeIn(env, l, node, chain[from..end], height), chain, m)
    decreases end - from
  {
    hide Step, Spends, Inv;
    if from < end {
      var b := chain[from];
      assert chain[from..end] == [b] + chain[from + 1..end];
      var op := AsOp(l, node.store, b);
    var (changes, added) := (op.changes, op.added);
      var after := Step(env, node, Apply(b, changes, added));
      NodeFacts(env, node);
      Refuses(env, node, b, changes, added);
      StepGrows(env, node, Apply(b, changes, added));
      BurnedTakesNothing(env, l, if b.header.height >= height && Execution.Admits(env, l, b) then after else node,
                         chain, m, from + 1, end, height);
    }
  }

  /** The other half of termination: if the next block of the peer's chain spends a
      nullifier that is spent at the node already, no number of exchanges moves the
      node, and it is syncing for ever. */
  lemma {:induction false} BurnedNodeStalls(env: Env, l: Execution.Local, node: History, m: Manager, peer: Store,
          chain: seq<Block>, low: nat, at: nat, height: nat, n: nat)
    requires Burned(env, node, chain, at) && Serves(env, peer, chain, low) && low <= at
    requires peer.chainHeight == Some(|chain| - 1) && forall k :: at <= k < |chain| ==> chain[k].header.height == k
    requires m.isSyncing && at <= m.target
    ensures var (after, k) := Exchanges(env, l, node, m, peer, height, n);
            Burned(env, after, chain, at) && after.applied == node.applied && k == m
    decreases n
  {
    hide Serves, ServeFrom, TakeIn, Inv, Spends, Execution.Admits, Contracts.Phase;
    if n > 0 {
      BurnedNodeStalls(env, l, node, m, peer, chain, low, at, height, n - 1);
      var before := Exchanges(env, l, node, m, peer, height, n - 1).0;
      var end := Min(at + SYNC_LIMIT, |chain|);
      NodeFacts(env, before);
      ServesChain(env, peer, chain, low, at, end);
      BurnedTakesNothing(env, l, before, chain, at, at, end, height);
      NodeFacts(env, TakeIn(env, l, before, chain[at..end], height));
    }
  }

  /** Any node that came out of a run can be that peer, for a node that has reached
      the heights it pruned. */
  lemma AnyRunIsSource(env: Env, u: Universe, ops: seq<Op>, l: Execution.Local, at: nat)
    requires CollisionFree(env, u) && OpsIn(ops, u)
    requires var h := Run(env, GENESIS, ops);
             && 0 < |h.applied| && h.pruned <= at
             && forall k :: at <= k < |h.applied| ==> Execution.Admits(env, l, h.applied[k])
    ensures var h := Run(env, GENESIS, ops); Source(env, l, h.store, h.applied, h.pruned, at)
  {
    hide CollisionFree, Run;
    GenesisInv(env);
    RunServes(env, u, GENESIS, ops);
  }
}
