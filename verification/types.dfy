/** Values shared by every component: hashes, transactions, blocks, constants
    and the abstract hash functions the node computes with. */
module Types {

  newtype byte = b: int | 0 <= b < 256

  type Bytes = seq<byte>

  type Bytes32 = s: Bytes | |s| == 32 witness seq(32, _ => 0)

  /** A 32-byte digest; ids, nullifiers, commitments and roots are all digests. */
  datatype Hash32 = Hash32(bytes: Bytes32)

  function ZeroBytes(): Bytes32 {
    seq(32, _ => 0)
  }

  const ZERO := Hash32(ZeroBytes())

  datatype Option<+T> = None | Some(value: T)

  datatype Result<+T, +E> = Ok(value: T) | Err(error: E)

  const TREE_DEPTH: nat := 32
  const ANCHOR_EXPIRY_BLOCKS: nat := 100
  const MAX_BLOCK_GAS: nat := 100_000_000
  const MAX_TX_GAS: nat := 10_000_000
  const MIN_FEE: nat := 10_000
  const FEE_TIERS: set<nat> := {10_000, 100_000, 1_000_000}
  const MAX_MEMPOOL_SIZE: nat := 10_000
  const MAX_P2P_MESSAGE_SIZE: nat := 10_485_760
  const MAX_CONTRACT_SIZE: nat := 1_048_576
  const MAX_SPENDS_PER_TX: nat := 16
  const MAX_OUTPUTS_PER_TX: nat := 16
  const DEVNET_CHAIN_ID: nat := 42

  datatype ContractCall = ContractCall(
    contractId: Hash32, methodName: string, args: Bytes, gasLimit: nat, callerCommitment: Hash32)

  /** A confidential transaction. Spends are represented by their nullifiers and
      outputs by their note commitments, the only parts the ledger looks at; all
      that the modelled code merely carries along, such as memo, signatures and
      proofs, is one string that still tells transactions apart. */
  datatype Transaction = Transaction(
    version: nat,
    chainId: nat,
    spends: seq<Hash32>,
    outputs: seq<Hash32>,
    fee: nat,
    gasLimit: nat,
    contractCall: Option<ContractCall>,
    deployContract: Option<Bytes>,
    timestamp: nat,
    carried: Bytes)

  datatype BlockHeader = BlockHeader(
    height: nat,
    parentHash: Hash32,
    stateRoot: Hash32,
    txRoot: Hash32,
    nullifierRoot: Hash32,
    timestamp: nat,
    epoch: nat,
    vrfOutput: Hash32,
    proposer: Hash32,
    chainId: nat,
    gasUsed: nat,
    gasLimit: nat)

  datatype Block = Block(header: BlockHeader, transactions: seq<Transaction>, aggregateSig: Bytes)

  type HashPair = (Hash32, Hash32) -> Hash32

  /** The hash functions of the node. Nothing is assumed about them; a property
      that needs collision resistance asks for it on the data it talks about. */
  datatype Env = Env(
    hashPair: HashPair,
    headerHash: BlockHeader -> Hash32,
    txId: Transaction -> Hash32,
    txSize: Transaction -> nat,
    idsHash: seq<Hash32> -> Hash32,
    nullifiersHash: seq<Hash32> -> Hash32)

  datatype TxFormatError =
    | UnsupportedVersion
    | NoInputs
    | NoOutputs
    | TooManySpends
    | TooManyOutputs
    | InvalidFeeTier
    | GasLimitTooHigh
    | InvalidTimestamp
    | ContractTooLarge
    | TooLarge

  /** The structural check of a transaction: the first rule it breaks, if any. */
  function FormatError(env: Env, tx: Transaction): Option<TxFormatError> {
    var noContract := tx.contractCall.None? && tx.deployContract.None?;
    if tx.version != 1 then Some(UnsupportedVersion)
    else if tx.spends == [] && noContract then Some(NoInputs)
    else if tx.outputs == [] && noContract then Some(NoOutputs)
    else if |tx.spends| > MAX_SPENDS_PER_TX then Some(TooManySpends)
    else if |tx.outputs| > MAX_OUTPUTS_PER_TX then Some(TooManyOutputs)
    else if tx.fee !in FEE_TIERS then Some(InvalidFeeTier)
    else if tx.gasLimit > MAX_TX_GAS then Some(GasLimitTooHigh)
    else if tx.timestamp % 900 != 0 then Some(InvalidTimestamp)
    else if tx.deployContract.Some? && |tx.deployContract.value| > MAX_CONTRACT_SIZE then Some(ContractTooLarge)
    else if env.txSize(tx) > MAX_P2P_MESSAGE_SIZE then Some(TooLarge)
    else None
  }

  predicate WellFormed(env: Env, tx: Transaction) {
    FormatError(env, tx).None?
  }

  /** The rules of the format, each on its own. */
  predicate Breaks(env: Env, tx: Transaction, rule: TxFormatError) {
    match rule
    case UnsupportedVersion => tx.version != 1
    case NoInputs => |tx.spends| == 0 && tx.contractCall == None && tx.deployContract == None
    case NoOutputs => |tx.outputs| == 0 && tx.contractCall == None && tx.deployContract == None
    case TooManySpends => |tx.spends| > 16
    case TooManyOutputs => |tx.outputs| > 16
    case InvalidFeeTier => tx.fee != 10_000 && tx.fee != 100_000 && tx.fee != 1_000_000
    case GasLimitTooHigh => tx.gasLimit > 10_000_000
    case InvalidTimestamp => tx.timestamp / 900 * 900 != tx.timestamp
    case ContractTooLarge => tx.deployContract.Some? && |tx.deployContract.value| > 1024 * 1024
    case TooLarge => env.txSize(tx) > 10 * 1024 * 1024
  }

  /** The place of a rule in the order of the checks. */
  function Place(rule: TxFormatError): nat {
    match rule
    case UnsupportedVersion => 0
    case NoInputs => 1
    case NoOutputs => 2
    case TooManySpends => 3
    case TooManyOutputs => 4
    case InvalidFeeTier => 5
    case GasLimitTooHigh => 6
    case InvalidTimestamp => 7
    case ContractTooLarge => 8
    case TooLarge => 9
  }

  /** The reported error is the first rule in this order that is broken. */
  lemma FirstRuleBroken(env: Env, tx: Transaction, rule: TxFormatError)
    ensures FormatError(env, tx) == Some(rule) <==>
              Breaks(env, tx, rule) && forall e :: Place(e) < Place(rule) ==> !Breaks(env, tx, e)
    ensures WellFormed(env, tx) <==> forall e :: !Breaks(env, tx, e)
  {
    var r := FormatError(env, tx);
    forall e
      ensures r == None ==> !Breaks(env, tx, e)
      ensures r.Some? && Place(e) < Place(r.value) ==> !Breaks(env, tx, e)
    {
    }
    if r.Some? {
      assert Breaks(env, tx, r.value);
      assert Place(r.value) < Place(rule) || Place(rule) < Place(r.value) || rule == r.value;
    }
  }
}
