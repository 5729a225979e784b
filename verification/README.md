# NoirNet: ledger and consensus kernel

This project models the stateful core of a NoirNet node and proves what it keeps:

- `merkle.dfy` — the incremental note commitment tree against the padded tree it stands for;
- `bft.dfy`, `consensus.dfy` — the vote state of a round, the consensus event loop with the store and pool of its
  node, and the protocol that any number of nodes run against validators that vote as they please;
- `conduct.dfy` — what a node does over a run, told from the actions alone;
- `safety.dfy`, `disagreement.dfy`, `stalls.dfy` — agreement and validity of that protocol with their exact bounds,
  the runs past them, and the runs in which nothing moves;
- `ledger.dfy`, `chain.dfy`, `pruning.dfy` — the state store and its histories of applied, refused and pruned blocks;
- `sorting.dfy`, `mempool.dfy`, `builder.dfy`, `execution.dfy` — the pool, the block builder, and the execution of a
  block on a node, end to end;
- `vm.dfy`, `contracts.dfy` — host calls over a write overlay, and the contract phase of a block;
- `sync.dfy` — block download; `validators.dfy` — validator sets, quorums and leader election;
- `types.dfy` — hashes, transactions, blocks, constants and the format check.

Structs whose methods change fields are classes (`NoteCommitmentTree`, `BftRoundState`, `ConsensusEngine`,
`NullifierStore`, `BlockStore`, `StateStore`, `PrivateMempool`, `BlockBuilder`, `ExecutionContext`, `SyncManager`); each
method is proved to move the abstract state as a pure function says, and the theorems are about these functions, over
all inputs and all runs. Database trees are maps. Integers are unbounded, except where a result is truncated (`AsI32`).

Hash functions are fields of `Env` with nothing assumed about them. A digest has 32 bytes, so no hash is injective on
everything; where collision resistance matters, a theorem asks for it on the finite data it is about (`CollisionFree`,
`IdsUnique`, `NodeCollision`), never in general. A vote can be delivered only after it was sent, and only honest nodes
send votes of keys they hold; as the signature covers the block hash alone, a sent vote can also be replayed as another
vote for that hash, and theorems that exclude this say so (`Authentic`). Spend proofs, clocks, shuffles, VRF outputs and
the contract loader are parameters.

## What the code does that its comments or tests would not suggest

- Refusing a block is not atomic: a double spend leaves earlier nullifiers spent and earlier outputs in the tree
  (`RefusalIsAtomicIff`, `RefusedBlockBurns`), although the engine calls the application atomic.
- The append that fills the tree drops its carry, and the root becomes that of the empty tree (`FullTreeRoot`).
- A commit moves a node to a greater height exactly when the executed block passes the node's checks and spends
  distinct, unspent nullifiers, or its chain is past that height already (`MovesIff`). Otherwise the node enters the
  same height again, votes again in the same round, and agreement fails (`RestartBreaksAgreement`).
- This is what happens to every block of the builder: it leaves the aggregate signature empty, nothing else ever sets
  it (block_builder.rs:93 is the only place), and a validator turns such blocks away (`ValidatorRefusesBuiltBlocks`).
  As long as only such blocks go round, no validator's chain ever grows (`ValidatorsNeverAdvance`).
- A node with an empty store enters height 1, while its store expects a block of height 0. In no run whatever does it
  apply a block (`EmptyChainNeverStarts`), and nothing in the repository writes a first block otherwise.
- A node counts its own vote without asking whether it is in the validator set. So the exact bound of agreement
  between two nodes is not one third of faulty validators: with q = floor(2n/3) + 1, it is 2q > n + faulty + the
  number of the two that hold a key outside the set (`AgreementIff`). Among honest validators, two such outsiders
  disagree exactly in sets of two or four (`OutsidersDisagreeIff`).
- One's own vote is counted but sets off no phase: a set of one honest validator never commits
  (`LoneValidatorNeverCommits`).
- With an empty validator set the votes of any id count, against four supposed validators, and six honest nodes
  execute two blocks in one height and round (`EmptySetDisagrees`). Nothing in the repository writes the table of
  validators (state.rs:183 only reads it), so that without outside help every set is empty.
- A prevote's signature is that of a precommit for the same block, and replaying it breaks agreement between two
  honest validators (`ReplayBreaksAgreement`).
- A node executes the last proposal it took in, not the one with the committed hash (`ExecutesAnotherBlock`).
- A node that applies a built block keeps the mined transactions in its pool, because the header carries the root
  before the block (`StateRootCheckPasses`, `MinedTxsStay`).
- A pool transaction that lists a nullifier twice enters the pool. Nothing ever removes it (`OffenderStays`), and
  whenever it is selected the block that is built is refused (`OffenderStalls`).
- After a download the event loop keeps the height it had entered, and takes in no proposal above it, until it
  executes a block on commit (`DownloadsLeaveLoopBehind`). The `else { break; }` meant to leave the loop then
  (engine.rs:418) is unreachable, because a request is kept exactly while syncing (`ReceiveResponse`).
- A sync request goes to a random peer id made up for the purpose (engine.rs:314), not to the peer that announced the
  block; the model leaves the peer's id free and proves what follows if the request is answered.
- A node on which a refused block has burned a nullifier of the next block never gets past that block
  (`BurnedForEver`, `BurnedNodeStalls`).
- A proposal carries its height as epoch and the hash of its parent as VRF output, because the arguments of
  `build_block` are filled that way (engine.rs:300, `ProposalHeader`).
- A prevote that arrives before the proposal is used up to open the round, even if it completes a quorum
  (`OpensWithFirst`).
- A timeout starts a new round but no new proposal: the last one taken in stays, and may be executed rounds later
  (`RoundsAndProposals`, `CommitExecutesLastTaken`).
- A second call of a contract within a block does not see the writes of the first (`SecondCallIsStale`).
- Validators of equal stake are ordered as they were listed (`TiesDependOnOrder`).
- The mempool's tests use fees outside the fee tiers; the format check refuses those, and the model follows the check.

## Model

| member | source | states |
|---|---|---|
| Merkle.NoteCommitmentTree.Open | crates/noirnet-storage/src/merkle.rs:25-39 | reopening from what was saved gives back the tree in memory |
| Merkle.NoteCommitmentTree.AppendLeaf | crates/noirnet-storage/src/merkle.rs:41-63 | the carry loop moves the tree as one binary-counter append, stores the leaf under the old size, and keeps memory and disk in agreement |
| Merkle.NoteCommitmentTree.CurrentRoot | crates/noirnet-storage/src/merkle.rs:65-76 | the loop over the bits of the size computes the specified root |
| Merkle.NoteCommitmentTree.EmptySubtree | crates/noirnet-storage/src/merkle.rs:96-102 | the loop computes the root of an all-zero subtree |
| Merkle.CarryHolds | crates/noirnet-storage/src/merkle.rs:46-55 | one carry keeps "each level holds its one unpaired node" for the longer leaf list |
| Merkle.FrontierByBits | crates/noirnet-storage/src/merkle.rs:41-63 | frontier entry i is present exactly when bit i of the size is set, and is then the perfect-subtree root of its 2^i leaves |
| Merkle.RootIsNaive | crates/noirnet-storage/src/merkle.rs:65-76 | below capacity the incremental root is the root of the zero-padded tree over all leaves, at every depth |
| Merkle.RootIsNaiveOfRecent | crates/noirnet-storage/src/merkle.rs:41-76 | with no bound on appends, the root covers exactly the leaves since the size last was a multiple of 2^depth |
| Merkle.IncrementalRoot | crates/noirnet-storage/src/merkle.rs:41-102 | appending any list one by one to the empty tree gives the padded root of that list |
| Merkle.FullTreeRoot | crates/noirnet-storage/src/merkle.rs:47-55 | at exactly 2^depth leaves the root is the empty tree's, right exactly when all leaves are zero (no collision) |
| Merkle.RootBinding | crates/noirnet-storage/src/merkle.rs:65-102 | without a collision between the two trees, roots agree exactly when the padded leaves do; with equal sizes the lists agree |
| Merkle.TrailingZeroKeepsRoot | crates/noirnet-storage/src/merkle.rs:65-102 | the root does not bind the size: a trailing zero leaf does not change it |
| Types.FirstRuleBroken | crates/noirnet-types/src/transaction.rs:55-101 | the format check reports the first broken of ten written-out rules, and passes exactly if none is |
| Bft.BftRoundState.RecordVote | crates/noirnet-consensus/src/bft.rs:40-55 | a vote of this height and round enters the tally of its kind and block, reporting whether it was new; the phase stays |
| Bft.BftRoundState.HasQuorumPrevote | crates/noirnet-consensus/src/bft.rs:58-64 | true exactly when more than two thirds of the validators prevoted the block |
| Bft.BftRoundState.HasQuorumPrecommit | crates/noirnet-consensus/src/bft.rs:66-72 | the same for precommits |
| Bft.BftRoundState.TryAdvancePhase | crates/noirnet-consensus/src/bft.rs:75-93 | the phase moves forward by one step or not at all, as specified |
| Bft.OpensWithFirst | crates/noirnet-consensus/src/bft.rs:75-93 | of prevotes heard before any proposal the first only opens the round, whatever it adds up to; from the second on a quorum moves to precommit |
| Consensus.ConsensusEngine.constructor | crates/noirnet-consensus/src/engine.rs:262-270 | the loop enters the height after the chain of its store |
| Consensus.ConsensusEngine.ReceiveBlock | crates/noirnet-consensus/src/engine.rs:312-336 | the proposal arm: node state and sent vote are those of the specification |
| Consensus.ConsensusEngine.ReceiveVote | crates/noirnet-consensus/src/engine.rs:339-383 | the vote arm: node state, store and pool, sent vote, committed hash and executed block are those of the specification |
| Consensus.ConsensusEngine.ExecuteAndEnter | crates/noirnet-consensus/src/engine.rs:262-375 | on commit the block is executed on store and pool, and the loop enters the height after the chain that results |
| Consensus.ConsensusEngine.ReceiveDownload | crates/noirnet-consensus/src/engine.rs:406-411 | a downloaded block from the loop's height on is executed, and the loop keeps its height |
| Consensus.MovesIff | crates/noirnet-consensus/src/engine.rs:262-375 | exactly when a commit takes a node to a greater height |
| Consensus.ConsensusEngine.RoundTimeout | crates/noirnet-consensus/src/engine.rs:424-436 | the timeout arm: a fresh vote state for the next round, the last proposal kept |
| Consensus.ConsensusEngine.Propose | crates/noirnet-consensus/src/engine.rs:287-303 | the leader's proposal, with the arguments of the code |
| Conduct.RoundsAndProposals | crates/noirnet-consensus/src/engine.rs:308-436 | over every run, until a node executes a block on commit its round is the number of its timeouts, and it holds the last proposal for its height that it was given while not syncing, through all rounds |
| Conduct.CommitExecutesLastTaken | crates/noirnet-consensus/src/engine.rs:371-375 | a commit in whatever round executes the last proposal taken in since the height was entered |
| Conduct.BooksFollow | crates/noirnet-consensus/src/engine.rs:371-411 | over every run, store and pool of a node are what its events make of them: blocks executed on commit or downloaded from its height on, with its own key, clock, verifier and runtime, submissions and prunings |
| Conduct.NodesStaySafe | crates/noirnet-consensus/src/engine.rs:96-250 | over every run of the protocol, each node's ledger stays free of double spends, its pool consistent, and every added block met the checks of the moment it came |
| Conduct.ProposalHeader | crates/noirnet-consensus/src/engine.rs:287-303 | after any history a proposal is for the next height on the tip, with its height as epoch and the hash of its parent as VRF output; on an empty chain it is for a height the node does not work on |
| Conduct.ProposalBody | crates/noirnet-consensus/src/engine.rs:287-303 | the body of a proposal is what the pool selects, at most 10000 transactions within 100000000 gas, with nothing dropped |
| Consensus.VoteOutcomeIff | crates/noirnet-consensus/src/engine.rs:339-383 | exactly when a delivered vote makes a node precommit or commit, and what it then executes |
| Safety.VoteKeepsOwn | crates/noirnet-consensus/src/engine.rs:353-375 | while commits at the height move the node on, a key precommits only on leaving the prevote phase and commits only on leaving the next one, so once per round each |
| Safety.AdvanceMeansQuorum | crates/noirnet-consensus/src/bft.rs:75-93 | a phase change on a vote means more than two thirds really sent that vote: validators, or the node itself |
| Safety.CommitsNeedVotes | crates/noirnet-consensus/src/bft.rs:66-72 | behind every commit of a run stand precommits that were sent, of more than two thirds of the validators, or of three ids where no validator is registered |
| Safety.StepKeepsInv | crates/noirnet-consensus/src/engine.rs:258-440 | every step but a replay into the height, refused commits included, keeps the invariant on tallies, quorums, received proposals and heights |
| Safety.StepKeepsOnce | crates/noirnet-consensus/src/engine.rs:258-440 | every step but such a replay and a commit at the height that stays put keeps one precommit and one commit per key and round |
| Safety.QuorumsShareHonest | crates/noirnet-consensus/src/bft.rs:57-72 | where the bound holds, two quorums as counted at two nodes share an honest validator |
| Safety.Agreement | crates/noirnet-consensus/src/engine.rs:339-383 | in every run without replays into the height in which the blocks executed there on commit pass the guards of `MovesIff`, whatever happens at other heights: two commits of one round are for one hash if they are of one key holder, or quorums at the two nodes overlap |
| Safety.ThirdSuffices | crates/noirnet-consensus/src/bft.rs:57-72 | at most a third faulty, and no committing key holder outside the set, is a case of both bounds |
| Safety.Validity | crates/noirnet-consensus/src/engine.rs:319-375 | in every run without replays into the height, refused commits included, a committed hash was prevoted by an honest validator that took in a proposal with it at that height, if quorums at the node outvote the faulty |
| Safety.ExecutesCommitted | crates/noirnet-consensus/src/engine.rs:371-375 | in the same runs, if the proposals taken in at a height share one hash, a block executed on commit has the committed hash |
| Disagreement.AgreementIff | crates/noirnet-consensus/src/engine.rs:339-383 | the bound of agreement is exact: for validator sets of any size that can commit at all, some run makes two nodes disagree exactly when their quorums need not overlap |
| Disagreement.OutsidersDisagreeIff | crates/noirnet-consensus/src/engine.rs:324-368 | among honest validators, two key holders outside the set disagree in some run exactly when the set has two or four members |
| Disagreement.ValidityIff | crates/noirnet-consensus/src/engine.rs:319-375 | the bound of validity is exact, too: some run commits a hash that no honest validator took in exactly past it |
| Disagreement.SignedEmptyBlockMoves | crates/noirnet-consensus/src/engine.rs:96-250 | blocks that the guards let through exist at every tip |
| Disagreement.ExecutesAnotherBlock | crates/noirnet-consensus/src/engine.rs:319-375 | without one proposal: in any honest set of two or more, a validator executes its last proposal when another one commits |
| Disagreement.RestartBreaksAgreement | crates/noirnet-consensus/src/block_builder.rs:86-95 | without commits that move on: any honest validators commit any two blocks that the builder made on their tip, in one height and round |
| Disagreement.UnsignedStays | crates/noirnet-consensus/src/engine.rs:98-101 | a commit of a block without aggregate signature leaves store, pool and height of a validator as they were, and the guards of `MovesIff` refuse it at the tip |
| Stalls.ValidatorsNeverAdvance | crates/noirnet-consensus/src/engine.rs:98-101 | over every run in which no block carries an aggregate signature, no validator's chain grows and its loop never leaves its first height |
| Stalls.EmptyChainNeverStarts | crates/noirnet-storage/src/state.rs:44-80 | over every run, a node that starts without blocks stays at height 1 and never applies one |
| Stalls.LoneValidatorNeverCommits | crates/noirnet-consensus/src/engine.rs:324-333 | over every run without replays into the height, nobody commits at a height whose set is one honest validator |
| Disagreement.EmptySetDisagrees | crates/noirnet-consensus/src/engine.rs:268-349 | with an empty validator set: of any six honest nodes, two execute different blocks in one height and round |
| Disagreement.ReplayBreaksAgreement | crates/noirnet-consensus/src/engine.rs:345-359 | with replays into the height: any two validators of an honest set execute different blocks in one round |
| Stalls.DownloadsLeaveLoopBehind | crates/noirnet-consensus/src/engine.rs:258-421 | over every run, until a node executes a block on commit it works on the height it entered and takes in no proposal of another, whatever it downloads |
| Ledger.NullifierStore.Insert | crates/noirnet-storage/src/nullifier_store.rs:28-39 | refuses, changing nothing, exactly when the nullifier is spent already |
| Ledger.BlockStore.Put | crates/noirnet-storage/src/block_store.rs:24-34 | stores the block under its header hash and each transaction under its id |
| Ledger.BlockStore.Delete | crates/noirnet-storage/src/block_store.rs:57-67 | removes the block and the ids of its transactions, if it is there |
| Ledger.StateStore.Apply | crates/noirnet-storage/src/state.rs:60-125 | the nested loops compute the specified store and result, including what a refused block leaves behind |
| Ledger.StateStore.Finish | crates/noirnet-storage/src/state.rs:101-122 | root, anchor, contracts, contract state, block index and chain height after the transaction loop |
| Ledger.StateStore.Prune | crates/noirnet-storage/src/state.rs:213-240 | the pruning loop computes the specified store and count; `ReadableFrom` says what that leaves |
| Chain.ApplyTxsFlat | crates/noirnet-storage/src/state.rs:86-99 | the loops mark one flat list of nullifiers and append exactly the outputs before the first double spend |
| Chain.SpendAllMarks | crates/noirnet-storage/src/state.rs:87-92 | marking succeeds exactly when the nullifiers are distinct and unspent, and never changes an earlier record |
| Chain.Accepted | crates/noirnet-storage/src/state.rs:69-92 | a block is accepted exactly when its height is next and its nullifiers are distinct and unspent |
| Chain.RefusedBecause | crates/noirnet-storage/src/state.rs:69-92 | why a block is refused: a wrong height, reported with the expected and the given one, and only then a nullifier listed twice or spent |
| Chain.StepKeepsInv | crates/noirnet-storage/src/state.rs:60-125 | applying, refusing and pruning keep heights, spent set, leaves and anchors in step with the applied blocks |
| Chain.NoDoubleSpend | crates/noirnet-storage/src/state.rs:60-125 | over every run, refused blocks and prunings included, applied heights are 0, 1, 2, ... and no nullifier occurs twice |
| Chain.LedgerRoot | crates/noirnet-storage/src/state.rs:86-103 | commitments are the outputs of the applied blocks exactly when no refused block had written outputs; the root then is the padded root over them |
| Chain.LedgerRootWithLeaks | crates/noirnet-storage/src/state.rs:38-41 | in every run the root is the padded root over all leaves written since the last wrap |
| Chain.AnchorWindow | crates/noirnet-storage/src/state.rs:101-135 | an anchor is valid at a height exactly when some applied block returned it at most 100 blocks earlier |
| Chain.RefusalIsAtomicIff | crates/noirnet-storage/src/state.rs:75-99 | a refused block leaves the store unchanged exactly when its height is wrong or it stops before writing anything |
| Chain.RefusedBlockBurns | crates/noirnet-storage/src/state.rs:86-99 | a block spending a nullifier twice makes it unspendable for ever, though no applied block spent it |
| Pruning.ReadsAfterAnyRun | crates/noirnet-storage/src/state.rs:138-150 | reading by height returns the applied block for exactly the heights from the number of pruned blocks on; transactions with spends likewise |
| Pruning.ReadableFrom | crates/noirnet-storage/src/state.rs:213-240 | after any run the readable heights start at the largest number of blocks that a pruning was to drop, computed from the operations and the chain length at each |
| Pruning.PruneRangeServes | crates/noirnet-storage/src/state.rs:223-234 | the returned count is how far the low-water mark moved |
| Pruning.PruneForgets | crates/noirnet-storage/src/block_store.rs:57-67 | one pruning call forgets exactly the ids that occur in the blocks it removes |
| Pruning.RetrievedIff | crates/noirnet-storage/src/block_store.rs:24-67 | after any run an id, spends or not, is found exactly when some applied block holds it and no block pruned after that one was applied does |
| Pruning.SpendlessTxIsLost | crates/noirnet-storage/src/block_store.rs:60-62 | a transaction without spends in two blocks is lost when the first is pruned, though the second is retained |
| Mempool.PrivateMempool.Submit | crates/noirnet-mempool/src/pool.rs:34-77 | checks in order, then reservations: pool and result are those of the specification |
| Mempool.PrivateMempool.SelectForBlock | crates/noirnet-mempool/src/pool.rs:82-114 | for every shuffle, the loop selects the greedy packing of the sorted valid transactions |
| Mempool.PrivateMempool.CleanUp | crates/noirnet-mempool/src/pool.rs:117-124 | removes the mined ids and frees all their nullifiers |
| Mempool.InsertOutcome | crates/noirnet-mempool/src/pool.rs:34-77 | exactly which transactions enter; the separate minimum fee check never refuses one |
| Mempool.RefusedFor | crates/noirnet-mempool/src/pool.rs:34-77 | why a submission is refused, in the order of the checks, down to the first nullifier that is spent or reserved |
| Mempool.Entered | crates/noirnet-mempool/src/pool.rs:69-77 | a submission that is taken is found under its id, its nullifiers are reserved for it, and nothing else changes |
| Mempool.GreedyPacking | crates/noirnet-mempool/src/pool.rs:82-114 | duplicate-free, fee-descending, within both limits; whatever valid transaction is left out met a full selection of no lower fees or does not fit beside those of no lower fee |
| Mempool.LittleGasLeft | crates/noirnet-mempool/src/pool.rs:98-113 | below the count limit, a left-out valid transaction means less than one transaction's gas is unused |
| Mempool.RemoveMinedKeepsInv | crates/noirnet-mempool/src/pool.rs:117-124 | cleaning up after an applied block keeps the reservation invariant |
| Mempool.PoolOverRuns | crates/noirnet-mempool/src/pool.rs:34-124 | over every interleaving with the ledger, pool transactions share no nullifier, each is reserved or spent, and no reservation outlives its owner |
| Mempool.CleanUpFreesAnothersNullifier | crates/noirnet-mempool/src/pool.rs:120-122 | a conflicting pool transaction stays, without its reservation |
| Builder.TruncateKeepsAllIff | crates/noirnet-consensus/src/block_builder.rs:56-70 | nothing is dropped exactly when every transaction and their sum are within the gas limits |
| Builder.TruncateGas | crates/noirnet-consensus/src/block_builder.rs:56-70 | the reported gas is that of the body and within the block limit |
| Builder.TruncateCuts | crates/noirnet-consensus/src/block_builder.rs:56-70 | the body is cut off at one place: all transactions within the gas limit of one from before it, and the next one would not fit |
| Builder.TxRootBinds | crates/noirnet-types/src/block.rs:45-54 | without a collision, the transaction root stands for one list of transactions |
| Builder.HeaderCarries | crates/noirnet-consensus/src/block_builder.rs:72-95 | the header carries proposer, VRF output, time and epoch as given, the root before the block and the roots of the list |
| Builder.BlockBuilder.Build | crates/noirnet-consensus/src/block_builder.rs:19-96 | the loops build the specified block |
| Builder.BuiltAcceptedIff | crates/noirnet-consensus/src/block_builder.rs:19-96 | from any consistent pool the built block drops nothing, its header describes its body, and the store accepts it exactly when every selected transaction lists distinct, unspent nullifiers |
| Builder.OffenderBlocks | crates/noirnet-mempool/src/pool.rs:82-114 | a block with a selected transaction that violates that is refused, on this store and every later one |
| Builder.OffenderStays | crates/noirnet-mempool/src/pool.rs:117-124 | over every run of submissions, applications, refusals, prunings and clean-ups, such a transaction stays in the pool |
| Builder.StaysIff | crates/noirnet-mempool/src/pool.rs:117-124 | a pool transaction stays over every run exactly when it lists a nullifier twice or a spent one |
| Builder.OffenderStalls | crates/noirnet-consensus/src/engine.rs:226-250 | after any run, whenever it is selected, the block that is built is refused |
| Builder.Pipeline | crates/noirnet-consensus/src/block_builder.rs:19-96 | from a clean pool the built block drops nothing, its header describes its body, the store accepts it, and the pool is clean again once the mined transactions are removed |
| Builder.SubmitKeepsCleanIff | crates/noirnet-types/src/transaction.rs:55-101 | a submission keeps the pool clean exactly when it is refused or lists no nullifier twice |
| Builder.BuiltOnTip | crates/noirnet-consensus/src/block_builder.rs:27-42 | after any run, a built block has the next height and the hash of the last applied block as parent |
| Builder.StateRootCheckPasses | crates/noirnet-consensus/src/engine.rs:226-234 | for a built block the root check passes exactly when all its outputs are zero (no collision) |
| Execution.ExecuteAndApply | crates/noirnet-consensus/src/engine.rs:96-250 | checks, contract phase, application, root check and clean-up move store and pool as specified |
| Execution.ExecutedHeight | crates/noirnet-consensus/src/engine.rs:96-250 | exactly when a block gets into the chain: it is next, signed if the node validates, at most 60 seconds ahead, each transaction with spends has a valid proof, no format rule is broken, and its nullifiers are distinct and unspent |
| Execution.AppliedAreSound | crates/noirnet-consensus/src/engine.rs:98-147 | over every run, each applied block met these demands, with the key, clock and verifier of the event it came in |
| Execution.ExecutesAsAction | crates/noirnet-consensus/src/engine.rs:226-248 | an executed block is one action of the pool-and-ledger system |
| Execution.NodeIsSafe | crates/noirnet-consensus/src/engine.rs:96-250 | over every run of a node: no double spend among applied blocks, and a consistent pool |
| Execution.ValidatorRefusesBuiltBlocks | crates/noirnet-consensus/src/engine.rs:98-101 | a validator never applies a block as its builder made it |
| Execution.MinedTxsStay | crates/noirnet-consensus/src/engine.rs:229-243 | an applied built block with a non-zero output leaves the pool as it was (no collision) |
| Execution.EnginePipeline | crates/noirnet-consensus/src/engine.rs:226-248 | as the engine runs it, the built block is applied, and the pool is clean afterwards exactly when the root check passed or nothing that was mined has spends |
| Vm.HostIsFlat | crates/noirnet-vm/src/host.rs:13-110 | a host call over the overlay is the call on one flat map: same answer, error, gas, events and memory |
| Vm.RunIsFlat | crates/noirnet-vm/src/runtime.rs:84-96 | so is every run of every contract, however it reacts to the answers |
| Vm.ExecuteIsFlat | crates/noirnet-vm/src/runtime.rs:71-97 | the overlay is handed back on success and dropped on a trap |
| Vm.NoReturnNoTrace | crates/noirnet-vm/src/runtime.rs:71-97 | a method that does not return, and a module that does not load, leave no trace |
| Vm.WritesThere | crates/noirnet-vm/src/runtime.rs:43-51 | a memory write puts the data where it belongs and touches nothing else, or does nothing |
| Vm.WrapsAround | crates/noirnet-vm/src/host.rs:82-109 | the returned length is the 32-bit signed number congruent to it |
| Vm.SetThenGet | crates/noirnet-vm/src/host.rs:16-109 | what was written last under a key is read back into memory, at the written-out price, or fails exactly for want of gas or room |
| Vm.GetLoaded | crates/noirnet-vm/src/host.rs:82-109 | a key that was not written in the run reads as loaded, or as absent |
| Vm.EmitAndDigest | crates/noirnet-vm/src/host.rs:38-75 | events carry contract and data in call order, digests land where asked, both at their price |
| Vm.ExecutionContext.Set | crates/noirnet-vm/src/host.rs:16-31 | reads key and value, charges 500 + 10 per byte, writes the overlay |
| Vm.ExecutionContext.Get | crates/noirnet-vm/src/host.rs:82-109 | charges 200 + 5 per byte, looks the key up in the overlay and then the loaded state, writes the value out |
| Vm.ExecutionContext.Emit | crates/noirnet-vm/src/host.rs:38-54 | charges 100 + 5 per byte and appends the event |
| Vm.ExecutionContext.Digest | crates/noirnet-vm/src/host.rs:61-75 | charges 50 + 5 per byte and writes the digest out |
| Vm.ExecutionContext.ChargeGas | crates/noirnet-vm/src/runtime.rs:32-35 | takes the amount or refuses, leaving the gas alone |
| Vm.ExecutionContext.Write | crates/noirnet-vm/src/runtime.rs:43-51 | writes the whole range or nothing |
| Contracts.LoadState | crates/noirnet-storage/src/state.rs:166-179 | the prefix scan yields exactly the contract's state, in any scan order |
| Contracts.CommitTouchesOne | crates/noirnet-consensus/src/engine.rs:207-212 | committing an overlay under the 32-byte prefix changes that contract's state by the overlay and no other's |
| Contracts.Attempt | crates/noirnet-consensus/src/engine.rs:152-213 | one deployment or call collects the specified changes and code, and nothing if it traps |
| Contracts.ExecuteContracts | crates/noirnet-consensus/src/engine.rs:149-223 | the loop collects the specified changes and new contracts |
| Contracts.BlockOverlays | crates/noirnet-consensus/src/engine.rs:149-223 | for any block: the state before it, overlaid by its successful attempts, each of which saw that same state |
| Contracts.BlockIsSequential | crates/noirnet-consensus/src/engine.rs:149-223 | a block that attempts each contract at most once equals sequential execution on flat maps |
| Contracts.AppliedWrites | crates/noirnet-consensus/src/engine.rs:149-223 | what an applied block does to a contract, from its transactions: in order, the writes of each deployment that fits and runs and of each call of a contract known before the block, each with its own gas on the state before the block |
| Contracts.AppliedIsSequential | crates/noirnet-storage/src/state.rs:110-113 | if no contract is deployed or called twice, an applied block leaves what running its transactions in turn on flat maps leaves; a refused block changes no contract state |
| Contracts.StaysContentAddressed | crates/noirnet-consensus/src/engine.rs:159-175 | stored bytecode stays under its own hash |
| Contracts.DeploysExactly | crates/noirnet-consensus/src/engine.rs:151-177 | after an applied block a contract is known exactly if it was before or a transaction deploys, within the size limit, a code with its hash whose init runs; its bytes then are such a code, and otherwise what they were |
| Contracts.SecondCallIsStale | crates/noirnet-consensus/src/engine.rs:190-203 | a block of two transactions that call one contract does not do what the two calls in turn do |
| Sync.SyncManager.Start | crates/noirnet-consensus/src/sync.rs:28-39 | syncing, the larger target, a request of fifty blocks |
| Sync.SyncManager.Check | crates/noirnet-consensus/src/sync.rs:41-49 | still syncing exactly below the target; a request is kept exactly while syncing |
| Sync.SyncManager.PeerHeight | crates/noirnet-consensus/src/sync.rs:51-60 | a download starts exactly when none runs and the peer is more than five blocks ahead |
| Sync.AnswerRequest | crates/noirnet-consensus/src/engine.rs:386-400 | the serving loop returns the specified blocks |
| Sync.ReceiveBlocks | crates/noirnet-consensus/src/engine.rs:406-411 | the response loop executes the blocks from the engine's height on, pool clean-up included |
| Sync.ReceiveResponse | crates/noirnet-consensus/src/engine.rs:403-421 | the response arm: nothing unless syncing; then store, pool, manager and next request are those of the specification, and there is a next request exactly while syncing |
| Sync.ExchangeIsResponse | crates/noirnet-consensus/src/engine.rs:386-421 | an exchange of the theorems below is what the arm does with what the peer serves, whatever is in the pool |
| Sync.ServesChain | crates/noirnet-consensus/src/engine.rs:389-397 | a peer serves its chain from its low-water mark, and nothing below it |
| Sync.AcceptsNext | crates/noirnet-storage/src/state.rs:60-125 | a node that follows a double-spend-free chain, and has burned nothing that chain has still to spend, accepts its next block |
| Sync.AcceptsNextIff | crates/noirnet-storage/src/state.rs:60-125 | the next block of the chain is accepted exactly when none of its nullifiers is spent at the node |
| Sync.BurnedForEver | crates/noirnet-storage/src/state.rs:86-99 | a node that burned a nullifier of its next block never applies that block, whatever it is given later |
| Sync.BurnedNodeStalls | crates/noirnet-consensus/src/engine.rs:386-421 | such a node stays where it is after any number of exchanges, and is syncing for ever |
| Sync.ExchangeGains | crates/noirnet-consensus/src/engine.rs:386-421 | an exchange gains min(50, remaining) blocks of the peer's chain |
| Sync.PrunedPeerStalls | crates/noirnet-consensus/src/engine.rs:393-421 | a peer that pruned the next block gives nothing, for ever |
| Sync.SyncEnds | crates/noirnet-consensus/src/sync.rs:28-49 | after any n exchanges the node is 50 n blocks further along the peer's chain, up to the target or the tip, and it syncs exactly until ceil((target - height) / 50) of them |
| Sync.CatchesUp | crates/noirnet-consensus/src/sync.rs:28-60 | from the announcement on: the first request is for the fifty blocks after the own chain, these are served, and the node has caught up after ceil((target - height) / 50) exchanges, not before |
| Sync.AnyRunIsSource | crates/noirnet-consensus/src/engine.rs:386-400 | any node that came out of a run is such a peer |
| Validators.QuorumIsTwoThirds | crates/noirnet-types/src/validator.rs:188-210 | the stored count threshold and the vote state's test are the same quorum |
| Validators.StakeQuorumsIntersect | crates/noirnet-types/src/validator.rs:213-215 | two stake quorums share more than a third of the stake |
| Validators.StakeQuorumIff | crates/noirnet-types/src/validator.rs:213-215 | a stake quorum is one that less than a third of the stake is missing from |
| Validators.SetDescends | crates/noirnet-types/src/validator.rs:182-192 | the set has the active entries, each as often as given, by descending stake |
| Validators.ProportionalElection | crates/noirnet-types/src/validator.rs:219-236 | of the thresholds below the total stake exactly a validator's stake many elect it; the fallback needs zero total stake |
| Validators.FairElection | crates/noirnet-types/src/validator.rs:219-236 | of any totalStake consecutive random numbers exactly a validator's stake many elect it |
| Validators.NoStakeElectsFirst | crates/noirnet-types/src/validator.rs:219-236 | without stake the first of the set is elected, and nobody from an empty set |
| Validators.FairSelection | crates/noirnet-consensus/src/leader.rs:35-61 | of any total-stake consecutive numbers exactly a validator's stake many select it |
| Validators.NoStakeSelection | crates/noirnet-consensus/src/leader.rs:40-45 | without stake, of as many consecutive words as validators each selects another one |
| Validators.SelectorAscends | crates/noirnet-consensus/src/leader.rs:10-21 | the selector lists all given validators by ascending id, byte by byte |
| Validators.NoStakeNoElection | crates/noirnet-types/src/validator.rs:219-236 | while anybody has stake, the elected validator has some |
| Validators.NoStakeNoSelection | crates/noirnet-consensus/src/leader.rs:35-61 | while anybody has stake, the selected validator has some |
| Validators.ElectLeader | crates/noirnet-types/src/validator.rs:219-236 | the loop elects the validator at the specified index, which `FairElection` is about |
| Validators.SelectLeader | crates/noirnet-consensus/src/leader.rs:24-62 | the loop selects the specified validator |
| Validators.SameSelectorIff | crates/noirnet-consensus/src/leader.rs:10-21 | two listings give the same selector exactly when, for each id, their entries with it are the same in the same order |
| Validators.SelectorIgnoresOrder | crates/noirnet-consensus/src/leader.rs:10-21 | with distinct ids, any order of the input gives the same selector |
| Validators.SameSetIff | crates/noirnet-types/src/validator.rs:182-192 | two lists of entries give the same set exactly when, for each stake, their active entries with it are the same in the same order |
| Validators.DistinctStakesIgnoreOrder | crates/noirnet-types/src/validator.rs:182-192 | with distinct active stakes, any order of the entries gives the same set |
| Sorting.SortIsStable | crates/noirnet-types/src/validator.rs:185-186 | sorting keeps the order of the entries that compare equal |
| Validators.TiesDependOnOrder | crates/noirnet-types/src/validator.rs:185-186 | with equal stakes the order of the entries decides the leader |

## Left out

- Agreement: holds per (height, round) as in the code, which has no lock across rounds; different rounds of a height may commit different blocks. The bound is exact (`AgreementIff`); the hypotheses on restarts and replays are one-directional, because a run may restart a height, or replay a vote, and still agree.
- AgreementIff: is about non-empty validator sets; with an empty one agreement fails, see `EmptySetDisagrees`.
- Liveness of the vote: the return value of the phase change is ignored when a proposal arrives, so transitions can be missed.
- Validator sets: one function of the height, the same for all nodes, where each node reads its own store on entering a height; no block changes that table in the code.
- SyncEnds: the peer's store and the node's clock are the same in all exchanges, and the engine's other arms do not run in between. In the vote protocol a downloaded block may be any block, at any time.
- BlockIsSequential: one-directional; a block may call a contract twice and still match, depending on the contract. `BlockOverlays` says what every block does.
- SelectForBlock: the parallel format check and the random generator; every order of the pool's keys is covered.
- Overflow of `u64` and `u128` counters, stakes and gas sums, and of the leaf counter: integers are unbounded here.
- The leader check, which only decides who proposes, and the serving arms of the loop, which are in `sync.dfy`.
- Duplicate validator ids: a validator set is a set of ids in the vote protocol, where the code keeps a list of keys.
- Signature bytes, spend proofs, VRF and the decoding of blocks: parameters or assumptions.
- Fields of transactions that the modelled code only carries along (memo, binding signature, proofs, keys and ciphertexts of spends and outputs): one string, `carried`.
- Arguments of contract calls and the caller's commitment: the runtime ignores the former (`_args`, runtime.rs:71) and no host function reads the latter.
- Wasm execution, fuel and linear-memory growth: a contract is any strategy that, from the answers so far, fills its memory and makes the next host call, returns or traps.
- Errors of the database and of serialization: every read and write succeeds.
- Interleavings within one mempool call: a call is one step.
- The fee market, epoch schedule, slashing, rewards, note encoding, addresses, wallet, RPC and networking: separate from the kernel, or only easy members.
