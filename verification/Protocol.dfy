/** The rules the node takes from the `paqus` library, as a record of functions.
    Every theorem is stated for all records that satisfy `Lawful`. */
module Protocols {
  import opened Types

  datatype Protocol = Protocol(
    hash: Block -> Hash,
    txHash: Tx -> Hash,
    txSize: Tx -> nat,
    /** Accounts after a block, or the reason it cannot be executed. */
    transition: (Ledger, Block) -> Result<Accounts, LedgerError>,
    stateRootAfter: (Ledger, Block) -> Result<Hash, LedgerError>,
    /** The state root of a table of accounts. */
    accountsRoot: Accounts -> Hash,
    mintableSubsidy: (Ledger, u64) -> Result<nat, LedgerError>,
    /** Spendable balance of an account at a height. */
    available: (Account, nat) -> u32,
    /** Does fork choice move from the best tip (second) to the new block (third)? */
    prefers: (map<Hash, Block>, Hash, Hash) -> bool,
    startDifficulty: nat,
    interval: nat,
    retarget: (nat, u64, u64, nat) -> Result<nat, ConsensusError>,
    checkGenesis: (Block, u64) -> Option<ConsensusError>,
    /** Checks a block (first) against its parent (second) at a clock reading. */
    checkNext: (Block, Block, u64) -> Option<ConsensusError>,
    checkpoint: (u64, Hash) -> bool,
    proofOfWork: Block -> Result<Hash, ConsensusError>,
    meetsDifficulty: (Hash, nat) -> bool,
    isSnapshotHeight: u64 -> bool,
    checkSigned: Tx -> Option<TransactionError>,
    checkSignedAt: (Tx, u64) -> Option<TransactionError>,
    relayFutureSecs: nat,
    rewardMaturity: nat,
    genesis: Block
  )

  /** The accounts a block may change. */
  function Touched(b: Block): (r: set<Address>)
  {
    {b.miner} + (set t | t in b.txs :: t.from) + (set t | t in b.txs :: t.to)
  }

  ghost predicate Keyed(accounts: Accounts)
  {
    forall a :: a in accounts ==> accounts[a].address == a
  }

  /** Digests do not collide and are never the all-zero digest. */
  ghost predicate HashLaw(p: Protocol)
  {
    && (forall a, b :: p.hash(a) == p.hash(b) ==> a == b)
    && (forall b :: p.hash(b) != ZERO_HASH)
    && (forall s, t :: p.txHash(s) == p.txHash(t) ==> s == t)
  }

  /** Executing a block deletes no account and, above genesis, touches only sender, receiver and
      miner accounts; genesis may also create allocation accounts. Each transaction carries its
      sender's current nonce, which then goes up: so executed nonces start at the old account nonce,
      rise within the block, and end below the new one. */
  ghost predicate TransitionLaw(p: Protocol)
  {
    forall l, b :: p.transition(l, b).Ok? ==> TransitionStep(l.accounts, b, p.transition(l, b).value)
  }

  ghost predicate TransitionStep(before: Accounts, b: Block, after: Accounts)
  {
    && before.Keys <= after.Keys
    && (b.height > 0 ==> forall a :: a in after && a !in Touched(b) ==> a in before && after[a] == before[a])
    && (Keyed(before) ==> Keyed(after))
    && (forall a :: a in before ==> before[a].nonce <= after[a].nonce)
    && (forall t :: t in b.txs ==> t.from in after && t.nonce < after[t.from].nonce)
    && (forall t :: t in b.txs && t.from in before ==> before[t.from].nonce <= t.nonce)
    && (forall i, j :: 0 <= i < j < |b.txs| && b.txs[i].from == b.txs[j].from ==> b.txs[i].nonce < b.txs[j].nonce)
  }

  /** The state root does not depend on the header fields that mining rewrites. */
  ghost predicate RootLaw(p: Protocol)
  {
    forall l: Ledger, b: Block, difficulty: nat, nonce: nat, root: Hash ::
      p.stateRootAfter(l, b.(difficulty := difficulty, nonce := nonce, stateRoot := root)) == p.stateRootAfter(l, b)
  }

  ghost predicate ConsensusLaw(p: Protocol)
  {
    && (forall b, parent, now :: p.checkNext(b, parent, now).None? ==>
          b.height == parent.height + 1 && |b.txs| <= U32_MAX + 1)
    && (forall b, parent, now: u64, later: u64 :: now <= later && p.checkNext(b, parent, now).None? ==>
          p.checkNext(b, parent, later).None?)
    && (forall b, now :: p.checkGenesis(b, now).None? ==> b.prev == ZERO_HASH)
    && p.interval > 0
  }

  ghost predicate GenesisLaw(p: Protocol)
  {
    && p.genesis.height == 0
    && p.genesis.prev == ZERO_HASH
    && |p.genesis.txs| <= U32_MAX + 1
    && p.transition(Ledger(map[], []), p.genesis).Ok?
  }

  ghost predicate Lawful(p: Protocol)
  {
    HashLaw(p) && TransitionLaw(p) && RootLaw(p) && ConsensusLaw(p) && GenesisLaw(p)
  }
}
