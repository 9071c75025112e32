/** Plain data shared by every module: bounded integers, transactions, blocks,
    accounts, ledgers, and the error values the node reports. */
module Types {

  const U32_MAX: nat := 0xFFFF_FFFF
  const U64_MAX: nat := 0xFFFF_FFFF_FFFF_FFFF

  type u32 = n: nat | n <= U32_MAX
  type u64 = n: nat | n <= U64_MAX

  /** A digest, read as a number. The all-zero digest is `ZERO_HASH`. */
  type Hash = nat
  type Address = nat

  const ZERO_HASH: Hash := 0

  datatype Option<+T> = None | Some(value: T)
  datatype Result<+T, +E> = Ok(value: T) | Err(error: E)

  /** A signed transfer; `seal` stands for the public key and the signature. */
  datatype Tx = Tx(from: Address, to: Address, amount: u32, fee: u32, nonce: u64, timestamp: u64, seal: nat)

  datatype Coinbase = Coinbase(miner: Address, subsidy: nat, fees: nat)

  datatype Block = Block(height: u64, prev: Hash, miner: Address, difficulty: nat, timestamp: u64,
                         nonce: nat, stateRoot: Hash, coinbase: Option<Coinbase>, txs: seq<Tx>)

  datatype Account = Account(address: Address, nonce: u64, funds: nat)

  type Accounts = map<Address, Account>

  /** Account states plus the chain of blocks that produced them, genesis first. */
  datatype Ledger = Ledger(accounts: Accounts, blocks: seq<Block>)

  datatype StateError = InvalidNonce | BalanceOverflow | InsufficientBalance
  datatype LedgerError =
    | AccountNotFound
    | InvalidStateRoot
    | DuplicateLedgerBlock
    | UnlinkedBlock
    | InvalidState(state: StateError)
    | OtherLedgerError(code: nat)
  datatype ConsensusError = UnexpectedDifficulty | OtherConsensusError(code: nat)
  datatype TransactionError = FromFuture | Expired | OtherTransactionError(code: nat)
  datatype ForkChoiceError = MissingParent | DuplicateBlock
  datatype NodeError =
    | ConsensusFailure(consensus: ConsensusError)
    | ForkChoiceFailure(fork: ForkChoiceError)
    | LedgerFailure(ledger: LedgerError)
    | MissingGenesisState
    | CheckpointMismatch
    | ReorgRequired

  function SatAdd64(a: u64, n: nat): (r: u64)
  {
    if a + n <= U64_MAX then a + n else U64_MAX
  }

  function SatSub(a: nat, b: nat): (r: nat)
  {
    if b <= a then a - b else 0
  }
}
