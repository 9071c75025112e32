/** Mining: prepare a candidate under the lock, search without it, commit under it. */
module Mining {
  import opened Types
  import opened Protocols
  import opened ForkTree
  import opened Replays
  import opened MempoolRules
  import opened Mempools
  import opened Selection
  import opened Consistency
  import opened Orphanage
  import opened Delivery
  import opened Nodes
  import opened Runs

  // ----- Candidate block -----

  function TotalFees(txs: seq<Tx>): (r: nat)
  {
    if txs == [] then 0 else TotalFees(txs[..|txs| - 1]) + txs[|txs| - 1].fee
  }

  /** The fee sum in 32 bits, as an optimised build adds it up. */
  function FeeSum(txs: seq<Tx>): (r: nat)
    ensures r <= U32_MAX && (r == TotalFees(txs) <==> TotalFees(txs) <= U32_MAX)
  {
    TotalFees(txs) % (U32_MAX + 1)
  }

  method SumFees(txs: seq<Tx>) returns (r: u32)
    ensures r == FeeSum(txs)
  {
    r := 0;
    for i := 0 to |txs|
      invariant r == FeeSum(txs[..i])
    {
      assert txs[..i + 1][..i] == txs[..i];
      r := (r + txs[i].fee) % (U32_MAX + 1);
    }
    assert txs[..|txs|] == txs;
  }

  /** `b` is one higher than the tip of `l` and names it as its parent. */
  ghost predicate OnTip(p: Protocol, l: Ledger, b: Block)
  {
    && (|l.blocks| == 0 ==> b.height == 0 && b.prev == ZERO_HASH)
    && (|l.blocks| > 0 ==>
          b.height == SatAdd64(l.blocks[|l.blocks| - 1].height, 1) && b.prev == p.hash(l.blocks[|l.blocks| - 1]))
  }

  /** `b` sits on the tip of `l` and carries the state root that executing it on `l` gives. */
  ghost predicate BuiltOn(p: Protocol, l: Ledger, b: Block)
  {
    OnTip(p, l, b) && p.stateRootAfter(l, b) == Ok(b.stateRoot)
  }

  predicate IsGenesis(b: Block)
  {
    b.height == 0 && b.prev == ZERO_HASH
  }

  /** The coinbase of a candidate pays the subsidy and the 32-bit sum of the fees of its
      transactions. */
  ghost predicate Pays(p: Protocol, l: Ledger, b: Block)
  {
    if IsGenesis(b) then b.coinbase == None
    else p.mintableSubsidy(l, b.height).Ok?
         && b.coinbase == Some(Coinbase(b.miner, p.mintableSubsidy(l, b.height).value, FeeSum(b.txs)))
  }

  /** A block for the tip of `l`, up to the header fields that do not enter the state root. */
  ghost predicate Drafted(p: Protocol, l: Ledger, miner: Address, timestamp: u64, txs: seq<Tx>, b: Block)
  {
    OnTip(p, l, b) && Pays(p, l, b) && b.miner == miner && b.timestamp == timestamp && b.txs == txs
  }

  /** No candidate can be made: the subsidy is not defined, or the draft cannot be executed. */
  ghost predicate NoCandidate(p: Protocol, l: Ledger, miner: Address, timestamp: u64, txs: seq<Tx>, e: LedgerError)
  {
    || (exists b :: OnTip(p, l, b) && !IsGenesis(b) && p.mintableSubsidy(l, b.height) == Err(e))
    || (exists b :: Drafted(p, l, miner, timestamp, txs, b) && p.stateRootAfter(l, b) == Err(e))
  }

  /** Failing and succeeding exclude each other. */
  lemma CandidateOrNone(p: Protocol, l: Ledger, miner: Address, timestamp: u64, txs: seq<Tx>, b: Block, e: LedgerError)
    requires RootLaw(p) && Drafted(p, l, miner, timestamp, txs, b) && BuiltOn(p, l, b)
    ensures !NoCandidate(p, l, miner, timestamp, txs, e)
  {
    forall c | Drafted(p, l, miner, timestamp, txs, c) ensures p.stateRootAfter(l, c).Ok? {
      assert c == b.(difficulty := c.difficulty, nonce := c.nonce, stateRoot := c.stateRoot);
      RootUnmoved(p, l, b, c.difficulty, c.nonce, c.stateRoot);
    }
  }

  /** Rewriting difficulty, nonce or root leaves a candidate on its ledger. */
  lemma RootUnmoved(p: Protocol, l: Ledger, b: Block, difficulty: nat, nonce: nat, root: Hash)
    requires RootLaw(p)
    ensures p.stateRootAfter(l, b.(difficulty := difficulty, nonce := nonce, stateRoot := root))
            == p.stateRootAfter(l, b)
  {
  }

  /** `txs` is the greedy selection of `limit` transactions from a pool. */
  ghost predicate Selected(p: Protocol, pool: Pool, limit: nat, txs: seq<Tx>)
  {
    && |txs| == (if limit < |pool| then limit else |pool|)
    && exists q :: QueuesOf(p, PoolTxs(pool), q) && GreedySequence(p, q, txs)
  }

  /** There is only one greedy selection. */
  lemma SelectedUnique(p: Protocol, pool: Pool, limit: nat, a: seq<Tx>, b: seq<Tx>)
    requires HashLaw(p) && Selected(p, pool, limit, a) && Selected(p, pool, limit, b)
    ensures a == b
  {
    hide GreedySequence, HashLaw, QueuesOf, PoolTxs;
    var q :| QueuesOf(p, PoolTxs(pool), q) && GreedySequence(p, q, a);
    var r :| QueuesOf(p, PoolTxs(pool), r) && GreedySequence(p, r, b);
    QueuesUnique(p, PoolTxs(pool), q, r);
    GreedyUnique(p, q, a, b);
  }

  method SelectTransactions(p: Protocol, pool: Pool, limit: nat) returns (txs: seq<Tx>)
    requires HashLaw(p)
    ensures Selected(p, pool, limit, txs)
  {
    hide GreedySequence, QueuesOf, HashLaw;
    ghost var q;
    txs, q := SelectForBlock(p, pool, limit);
  }

  /** No candidate can be made with the greedy selection from a pool. */
  ghost predicate NoneFrom(p: Protocol, l: Ledger, pool: Pool, miner: Address, timestamp: u64, limit: nat,
                           e: LedgerError)
  {
    exists txs: seq<Tx> :: Selected(p, pool, limit, txs) && NoCandidate(p, l, miner, timestamp, txs, e)
  }

  /** `create_candidate_block`: a draft with its state root, or the reason there is none. */
  method CreateCandidateBlock(p: Protocol, pool: Pool, l: Ledger, miner: Address, timestamp: u64, nonce: nat,
                              limit: nat)
    returns (r: Result<Block, LedgerError>)
    requires HashLaw(p) && RootLaw(p)
    ensures r.Ok? ==> Selected(p, pool, limit, r.value.txs) && Drafted(p, l, miner, timestamp, r.value.txs, r.value)
    ensures r.Ok? ==> BuiltOn(p, l, r.value) && r.value.nonce == nonce
    ensures r.Err? ==> NoneFrom(p, l, pool, miner, timestamp, limit, r.error)
  {
    hide Selected, HashLaw;
    var height: u64, prev := 0, ZERO_HASH;
    if |l.blocks| > 0 {
      height, prev := SatAdd64(l.blocks[|l.blocks| - 1].height, 1), p.hash(l.blocks[|l.blocks| - 1]);
    }
    var txs := SelectTransactions(p, pool, limit);
    var fees := SumFees(txs);
    var b := Block(height, prev, miner, p.startDifficulty, timestamp, nonce, ZERO_HASH, None, txs);
    if !(height == 0 && prev == ZERO_HASH) {
      var subsidy := p.mintableSubsidy(l, height);
      if subsidy.Err? {
        assert OnTip(p, l, b);
        assert NoCandidate(p, l, miner, timestamp, txs, subsidy.error);
        return Err(subsidy.error);
      }
      b := b.(coinbase := Some(Coinbase(miner, subsidy.value, fees)));
    }
    assert Drafted(p, l, miner, timestamp, txs, b);
    var root := p.stateRootAfter(l, b);
    if root.Err? {
      assert NoCandidate(p, l, miner, timestamp, txs, root.error);
      return Err(root.error);
    }
    RootUnmoved(p, l, b, b.difficulty, b.nonce, root.value);
    return Ok(b.(stateRoot := root.value));
  }

  /** `prepare_candidate_block`: the candidate with the demanded difficulty. */
  method PrepareCandidateBlock(p: Protocol, pool: Pool, l: Ledger, miner: Address, timestamp: u64, limit: nat,
                               difficulty: nat)
    returns (r: Result<Block, LedgerError>)
    requires HashLaw(p) && RootLaw(p)
    ensures r.Ok? ==> Selected(p, pool, limit, r.value.txs) && Drafted(p, l, miner, timestamp, r.value.txs, r.value)
    ensures r.Ok? ==> BuiltOn(p, l, r.value) && r.value.difficulty == difficulty
    ensures r.Err? ==> NoneFrom(p, l, pool, miner, timestamp, limit, r.error)
  {
    hide Selected, HashLaw, RootLaw, NoneFrom;
    var created := CreateCandidateBlock(p, pool, l, miner, timestamp, 0, limit);
    if created.Err? { return Err(created.error); }
    var b := created.value;
    RootUnmoved(p, l, b, difficulty, b.nonce, b.stateRoot);
    return Ok(b.(difficulty := difficulty));
  }

  // ----- Nonce search -----

  /** Nonce `n` makes the block meet the difficulty. */
  predicate Solves(p: Protocol, b: Block, difficulty: nat, n: nat)
  {
    difficulty == 0 ||
    match p.proofOfWork(b.(nonce := n))
    case Ok(hash) => p.meetsDifficulty(hash, difficulty)
    case Err(_) => false
  }

  predicate Breaks(p: Protocol, b: Block, difficulty: nat, n: nat)
  {
    difficulty != 0 && p.proofOfWork(b.(nonce := n)).Err?
  }

  /** Exactly what a search over the nonces below `maxAttempts` gives: the least solving nonce, or
      none, or the first failure of the digest computation. */
  ghost predicate Searched(p: Protocol, candidate: Block, difficulty: nat, maxAttempts: u64,
                           r: Result<Option<(Block, u64)>, ConsensusError>)
  {
    match r
    case Ok(Some((b, attempts))) =>
      && 0 < attempts <= maxAttempts && b == candidate.(nonce := attempts - 1)
      && Solves(p, candidate, difficulty, attempts - 1) && Fruitless(p, candidate, difficulty, attempts - 1)
    case Ok(None) => Fruitless(p, candidate, difficulty, maxAttempts)
    case Err(e) =>
      exists n :: 0 <= n < maxAttempts && Breaks(p, candidate, difficulty, n)
        && p.proofOfWork(candidate.(nonce := n)) == Err(e)
                  && Fruitless(p, candidate, difficulty, n)
  }

  /** No nonce below `n` solves the block or makes the digest computation fail. */
  ghost predicate Fruitless(p: Protocol, candidate: Block, difficulty: nat, n: nat)
  {
    forall k :: 0 <= k < n ==> !Solves(p, candidate, difficulty, k) && !Breaks(p, candidate, difficulty, k)
  }

  /** What a search result is worth: a found block has a digest that meets the difficulty, and without
      one every nonce was tried and none has. At difficulty zero the first nonce is taken. */
  lemma SearchMeans(p: Protocol, candidate: Block, difficulty: nat, maxAttempts: u64,
                    r: Result<Option<(Block, u64)>, ConsensusError>)
    requires Searched(p, candidate, difficulty, maxAttempts, r)
    ensures r.Ok? && r.value.Some? && difficulty > 0 ==>
              var digest := p.proofOfWork(r.value.value.0);
              digest.Ok? && p.meetsDifficulty(digest.value, difficulty)
    ensures r.Ok? && r.value.Some? && difficulty == 0 ==> r.value.value.1 == 1
    ensures r == Ok(None) ==>
              forall n: u64 {:trigger candidate.(nonce := n)} :: n < maxAttempts ==>
                var digest := p.proofOfWork(candidate.(nonce := n));
                difficulty > 0 && digest.Ok? && !p.meetsDifficulty(digest.value, difficulty)
    ensures r.Err? ==> difficulty > 0 && maxAttempts > 0
  {
    if r == Ok(None) {
      forall n: u64 | n < maxAttempts
        ensures var digest := p.proofOfWork(candidate.(nonce := n));
                difficulty > 0 && digest.Ok? && !p.meetsDifficulty(digest.value, difficulty)
      {
        assert !Solves(p, candidate, difficulty, n) && !Breaks(p, candidate, difficulty, n);
      }
    } else if r.Ok? && difficulty == 0 && r.value.value.1 > 1 {
      assert Solves(p, candidate, difficulty, 0);
    }
  }

  /** Tries nonces from zero. */
  method MinePreparedBlock(p: Protocol, candidate: Block, difficulty: nat, maxAttempts: u64)
    returns (r: Result<Option<(Block, u64)>, ConsensusError>)
    ensures Searched(p, candidate, difficulty, maxAttempts, r)
  {
    var b := candidate;
    for attempt := 0 to maxAttempts
      invariant b == candidate.(nonce := b.nonce)
      invariant Fruitless(p, candidate, difficulty, attempt)
    {
      b := b.(nonce := attempt);
      if difficulty == 0 {
        assert Solves(p, candidate, difficulty, attempt);
        return Ok(Some((b, attempt + 1)));
      }
      var hash := p.proofOfWork(b);
      if hash.Err? {
        assert Breaks(p, candidate, difficulty, attempt);
        return Err(hash.error);
      }
      if p.meetsDifficulty(hash.value, difficulty) {
        assert Solves(p, candidate, difficulty, attempt);
        return Ok(Some((b, attempt + 1)));
      }
    }
    return Ok(None);
  }

  // ----- Prepare, search, commit -----

  /** If the tree only grew and the tip is the same again, so is the ledger. */
  lemma SameTipSameLedger(p: Protocol, ga: Accounts, l0: Ledger, fc0: ForkChoice, l1: Ledger, fc1: ForkChoice)
    requires Consistent(p, ga, l0, fc0) && Consistent(p, ga, l1, fc1) && Grows(fc0.nodes, fc1.nodes)
    requires fc0.best == fc1.best
    ensures l0 == l1
  {
    BranchStable(p, fc0.nodes, fc1.nodes, fc0.best);
  }

  /** What is left to check of a block that was built on the active ledger at the demanded difficulty. */
  ghost function CommitVerdict(p: Protocol, l: Ledger, fc: ForkChoice, b: Block, now: u64): (r: Option<NodeError>)
    requires |l.blocks| > 0
  {
    match p.checkNext(b, l.blocks[|l.blocks| - 1], now)
    case Some(e) => Some(ConsensusFailure(e))
    case None =>
      if !p.checkpoint(b.height, p.hash(b)) then Some(CheckpointMismatch)
      else if b.stateRoot == ZERO_HASH then Some(LedgerFailure(InvalidStateRoot))
      else match Apply(p, l, b)
           case Err(e) => Some(LedgerFailure(e))
           case Ok(_) => if p.hash(b) in fc.nodes then Some(ForkChoiceFailure(DuplicateBlock)) else None
  }

  /** Neither the difficulty check nor the state-root comparison can fail on such a block. */
  lemma CommitChecks(p: Protocol, ga: Accounts, l: Ledger, fc: ForkChoice, b: Block, now: u64)
    requires Consistent(p, ga, l, fc) && BuiltOn(p, l, b) && b.height > 0
    requires BranchDifficulty(p, l.blocks) == Ok(b.difficulty)
    ensures |l.blocks| > 0 && b.prev == fc.best
    ensures KnownParentVerdict(p, ga, l, fc, b, now) == CommitVerdict(p, l, fc, b, now)
  {
    hide AllReplay, Tree, Branch, Apply;
    ConsistentTip(p, ga, l, fc);
  }

  /** A candidate for the tip of `l`. */
  ghost predicate Ready(p: Protocol, l: Ledger, b: Block)
  {
    BuiltOn(p, l, b) && Pays(p, l, b) && b.height > 0 && BranchDifficulty(p, l.blocks) == Ok(b.difficulty)
  }

  lemma NonceKeepsReady(p: Protocol, l: Ledger, b: Block, nonce: nat)
    requires RootLaw(p) && Ready(p, l, b)
    ensures Ready(p, l, b.(nonce := nonce))
  {
    RootUnmoved(p, l, b, b.difficulty, nonce, b.stateRoot);
  }

  /** Exactly what preparing gives for a ledger and a pool: a candidate for its tip with the greedy
      selection, or the reason there is none. */
  ghost predicate Prepared(p: Protocol, l: Ledger, pool: Pool, miner: Address, timestamp: u64, limit: nat,
                           r: Result<Block, NodeError>)
    requires |l.blocks| > 0
  {
    match r
    case Ok(b) => Ready(p, l, b) && Selected(p, pool, limit, b.txs) && b.miner == miner && b.timestamp == timestamp
    case Err(ConsensusFailure(e)) => BranchDifficulty(p, l.blocks) == Err(e)
    case Err(LedgerFailure(e)) =>
      BranchDifficulty(p, l.blocks).Ok? && NoneFrom(p, l, pool, miner, timestamp, limit, e)
    case Err(_) => false
  }

  /** A candidate for the active tip from the present pool. */
  method BuildCandidate(node: Node, miner: Address, timestamp: u64, limit: nat) returns (r: Result<Block, NodeError>)
    requires node.Valid()
    ensures |node.ledger.blocks| > 0
    ensures Prepared(node.p, node.ledger, node.mempool.transactions, miner, timestamp, limit, r)
  {
    hide Consistent, HashLaw, TransitionLaw, RootLaw, ConsensusLaw, GenesisLaw, Selected, BranchDifficulty, NoneFrom;
    hide Node.Orphaned, Node.Mirrored, Mempool.Valid;
    var difficulty := node.NextDifficulty();
    ConsistentTip(node.p, node.genesisAccounts, node.ledger, node.fc);
    if difficulty.Err? { return Err(difficulty.error); }
    var candidate := PrepareCandidateBlock(node.p, node.mempool.transactions, node.ledger, miner, timestamp, limit,
                                              difficulty.value);
    match candidate {
      case Err(e) => return Err(LedgerFailure(e));
      case Ok(b) => return Ok(b);
    }
  }

  /** Under the lock: prune the pool and build a candidate. */
  method Prepare(node: Node, miner: Address, timestamp: u64, limit: nat) returns (r: Result<Block, NodeError>)
    requires node.Valid()
    modifies node.mempool
    ensures node.Valid() && |node.ledger.blocks| > 0
    ensures node.mempool.transactions == Pruned(node.mempool.config, old(node.mempool.transactions), timestamp)
    ensures Prepared(node.p, node.ledger, node.mempool.transactions, miner, timestamp, limit, r)
  {
    hide Consistent, Lawful, AtRest, QueueOk, Prepared, Pruned, Total;
    var _ := node.mempool.PruneExpired(timestamp);
    r := BuildCandidate(node, miner, timestamp, limit);
  }

  datatype Outcome = Mined(block: Block) | Discarded | Exhausted | Failed(error: NodeError)

  ghost function Committed(verdict: Option<NodeError>, b: Block): (r: Outcome)
  {
    match Reported(verdict)
    case None => Mined(b)
    case Some(e) => Failed(e)
  }

  lemma TipFacts(node: Node)
    requires node.Valid()
    ensures node.TipHash() == Some(node.fc.best) && node.fc.best in node.fc.nodes
  {
    hide AllReplay, AllPassed, Replay, Branch;
    ConsistentTip(node.p, node.genesisAccounts, node.ledger, node.fc);
  }

  lemma DeliveryGrows(p: Protocol, ga: Accounts, now: u64, fc0: ForkChoice, orphans0: Orphans, b: Block,
                      fc: ForkChoice, orphans: Orphans, dropped: set<Hash>)
    requires DeliveryStep(p, ga, now, fc0, orphans0, b, fc, orphans, dropped)
    ensures Advanced(p, fc0, fc) && Grows(fc0.nodes, fc.nodes)
  {
    hide Advanced, Delivered, DropsJustified, Acceptable;
    AdvancedGrows(p, fc0, fc);
  }

  lemma RepeatIsKnown(p: Protocol, ga: Accounts, fc: ForkChoice, b: Block, now: u64)
    requires Tree(p, fc.nodes) && Repeats(p, ga, fc, b, now)
    ensures p.hash(b) in fc.nodes
  {
  }

  /** Under the lock again: throw the block away if the tip moved, else apply and flush it. */
  method Commit(node: Node, b: Block, now: u64) returns (r: Outcome)
    requires node.Valid()
    modifies node`ledger, node`fc, node`orphans, node`children, node`requests, node`requested, node`retryAt
    modifies node.mempool, node.cache, node.storage
    ensures node.Valid() && Advanced(node.p, old(node.fc), node.fc)
    ensures r == Discarded <==> b.prev != old(node.fc.best)
    ensures r == Discarded ==> unchanged(node, node.mempool, node.cache, node.storage)
    ensures b.prev == old(node.fc.best) ==>
              r == Committed(old(KnownParentVerdict(node.p, node.genesisAccounts, node.ledger, node.fc, b, now)), b)
    ensures r == Mined(b) ==>
              || node.p.hash(b) in node.fc.nodes
              || old(KnownParentVerdict(node.p, node.genesisAccounts, node.ledger, node.fc, b, now))
                 == Some(LedgerFailure(DuplicateLedgerBlock))
    ensures node.p.hash(b) in node.fc.nodes && node.p.hash(b) !in old(node.fc.nodes) ==> r == Mined(b)
    ensures b.prev == old(node.fc.best)
            && old(KnownParentVerdict(node.p, node.genesisAccounts, node.ledger, node.fc, b, now)).Some? ==>
              node.fc == old(node.fc) && node.ledger == old(node.ledger)
    ensures b.prev == old(node.fc.best)
            && old(KnownParentVerdict(node.p, node.genesisAccounts, node.ledger, node.fc, b, now)).None? ==>
              old(Insert(node.p, node.fc, b)).Ok? && Advanced(node.p, old(Insert(node.p, node.fc, b)).value, node.fc)
  {
    hide Advanced, KnownParentVerdict, Consistent, Node.Core, Node.Orphaned, DeliveryStep, Insert, Repeats, Tree;
    hide Asked, Survivors, TakesIn;
    ghost var p, fc0 := node.p, node.fc;
    TipFacts(node);
    AdvancedReflexive(p, fc0);
    if node.TipHash() != Some(b.prev) { return Discarded; }
    ghost var known := Tree(p, fc0.nodes) && Repeats(p, node.genesisAccounts, fc0, b, now);
    var failed, dropped := node.ApplyBlock(b, now);
    DeliveryGrows(p, node.genesisAccounts, now, fc0, old(node.orphans), b, node.fc, node.orphans, dropped);
    if failed.Some? { return Failed(failed.value); }
    if known { RepeatIsKnown(p, node.genesisAccounts, fc0, b, now); }
    node.FlushToStorage();
    return Mined(b);
  }

  /** Commits a block that was prepared on the ledger `l0` when the tree was `fc0`, after anything
      may have happened since. It is applied only if the active ledger is still `l0`, and then
      neither its state root nor its difficulty can be wrong; otherwise nothing changes. */
  method CommitPrepared(node: Node, b: Block, now: u64, ghost l0: Ledger, ghost fc0: ForkChoice) returns (r: Outcome)
    requires node.Valid() && Consistent(node.p, node.genesisAccounts, l0, fc0) && Advanced(node.p, fc0, node.fc)
    requires Ready(node.p, l0, b)
    modifies node`ledger, node`fc, node`orphans, node`children, node`requests, node`requested, node`retryAt
    modifies node.mempool, node.cache, node.storage
    ensures node.Valid() && |l0.blocks| > 0
    ensures r == Discarded <==> old(node.fc.best) != fc0.best
    ensures r == Discarded ==> unchanged(node, node.mempool, node.cache, node.storage)
    ensures r != Discarded ==>
              old(node.ledger) == l0 && r == Committed(CommitVerdict(node.p, l0, old(node.fc), b, now), b)
    ensures r == Mined(b) ==>
              || node.p.hash(b) in node.fc.nodes
              || CommitVerdict(node.p, l0, old(node.fc), b, now) == Some(LedgerFailure(DuplicateLedgerBlock))
    ensures node.p.hash(b) in node.fc.nodes && node.p.hash(b) !in old(node.fc.nodes) ==> r == Mined(b)
    ensures r != Discarded && CommitVerdict(node.p, l0, old(node.fc), b, now).Some? ==>
              node.fc == old(node.fc) && node.ledger == l0
    ensures r != Discarded && CommitVerdict(node.p, l0, old(node.fc), b, now).None? ==>
              old(Insert(node.p, node.fc, b)).Ok? && Advanced(node.p, old(Insert(node.p, node.fc, b)).value, node.fc)
  {
    hide Advanced, KnownParentVerdict, CommitVerdict, Consistent, Node.Orphaned, Lawful, Ready, Committed, Insert;
    ghost var p := node.p;
    ReadyOnTip(p, node.genesisAccounts, l0, fc0, b);
    if node.fc.best == fc0.best {
      AdvancedGrows(p, fc0, node.fc);
      SameTipSameLedger(p, node.genesisAccounts, l0, fc0, node.ledger, node.fc);
      ReadyChecks(p, node.genesisAccounts, l0, node.fc, b, now);
    }
    r := Commit(node, b, now);
  }

  /** What one attempt may end in, given the candidate, the search result and the tree `fc1` that the
      commit met. */
  ghost function Ending(p: Protocol, l0: Ledger, fc0: ForkChoice, fc1: ForkChoice, candidate: Result<Block, NodeError>,
                        search: Result<Option<(Block, u64)>, ConsensusError>, now: u64): (r: Outcome)
    requires |l0.blocks| > 0
  {
    match candidate
    case Err(e) => Failed(e)
    case Ok(_) =>
      match search
      case Err(e) => Failed(ConsensusFailure(e))
      case Ok(None) => Exhausted
      case Ok(Some((b, _))) => if fc1.best != fc0.best then Discarded else Committed(CommitVerdict(p, l0, fc1, b, now),
              b)
  }

  /** The tree after the attempt: the one the commit met, or that one after the mined block. */
  ghost predicate EndsWith(p: Protocol, l0: Ledger, fc1: ForkChoice, fc: ForkChoice,
                           search: Result<Option<(Block, u64)>, ConsensusError>, r: Outcome, now: u64)
    requires |l0.blocks| > 0
  {
    if r.Mined? && search.Ok? && search.value.Some? && CommitVerdict(p, l0, fc1, search.value.value.0, now).None? then
      Insert(p, fc1, search.value.value.0).Ok? && Advanced(p, Insert(p, fc1, search.value.value.0).value, fc)
    else fc == fc1
  }

  /** A block reported as mined is the one that was found, and it is in the tree, unless the ledger
      called it a repeat; the one that was found and is new in the tree is reported as mined. */
  ghost predicate MinedExactly(p: Protocol, l0: Ledger, fc1: ForkChoice, fc: ForkChoice,
                               search: Result<Option<(Block, u64)>, ConsensusError>, r: Outcome, now: u64)
    requires |l0.blocks| > 0
  {
    && (r.Mined? ==>
          search.Ok? && search.value.Some? && r.block == search.value.value.0
          && (p.hash(r.block) in fc.nodes
              || CommitVerdict(p, l0, fc1, r.block, now) == Some(LedgerFailure(DuplicateLedgerBlock))))
    && (search.Ok? && search.value.Some? ==>
          var b := search.value.value.0;
          p.hash(b) in fc.nodes && p.hash(b) !in fc1.nodes ==> r == Mined(b))
  }

  /** Ends an attempt whose candidate was prepared on `l0` when the tree was `fc0`. */
  method Finish(node: Node, prepared: Result<Block, NodeError>,
                mined: Result<Option<(Block, u64)>, ConsensusError>, now: u64,
                ghost l0: Ledger, ghost fc0: ForkChoice)
    returns (r: Outcome)
    requires node.Valid() && prepared.Ok? && |l0.blocks| > 0
    requires Consistent(node.p, node.genesisAccounts, l0, fc0) && Advanced(node.p, fc0, node.fc)
    requires mined.Ok? && mined.value.Some? ==> Ready(node.p, l0, mined.value.value.0)
    modifies node`ledger, node`fc, node`orphans, node`children, node`requests, node`requested, node`retryAt
    modifies node.mempool, node.cache, node.storage
    ensures node.Valid()
    ensures r == Ending(node.p, l0, fc0, old(node.fc), prepared, mined, now)
    ensures EndsWith(node.p, l0, old(node.fc), node.fc, mined, r, now)
    ensures MinedExactly(node.p, l0, old(node.fc), node.fc, mined, r, now)
  {
    hide Advanced, CommitVerdict, Consistent, Node.Core, Node.Orphaned, Ready, Insert;
    match mined {
      case Err(e) => return Failed(ConsensusFailure(e));
      case Ok(None) => return Exhausted;
      case Ok(Some((b, _))) => r := CommitPrepared(node, b, now, l0, fc0);
    }
  }

  /** One mining attempt with arbitrary activity of other threads while the lock is free; `met` is the
      state the commit meets. */
  method MineOnce(node: Node, miner: Address, timestamp: u64, limit: nat, maxAttempts: u64, others: seq<Event>,
                  now: u64)
    returns (r: Outcome, ghost candidate: Result<Block, NodeError>,
             ghost search: Result<Option<(Block, u64)>, ConsensusError>,
             ghost states: seq<State>, ghost lost: seq<set<Hash>>, ghost met: State)
    requires node.Valid()
    modifies node`ledger, node`fc, node`orphans, node`children, node`requests, node`requested, node`retryAt
    modifies node.mempool, node.cache, node.storage
    ensures node.Valid() && |old(node.ledger).blocks| > 0
    ensures Prepared(node.p, old(node.ledger), Pruned(node.mempool.config, old(node.mempool.transactions), timestamp),
                     miner, timestamp, limit, candidate)
    ensures candidate.Ok? ==> Searched(node.p, candidate.value, candidate.value.difficulty, maxAttempts, search)
    ensures RunBetween(node.p, node.genesisAccounts, if candidate.Ok? then others else [], states, lost,
                       old(State(node.fc, node.orphans)), met)
    ensures r == Ending(node.p, old(node.ledger), old(node.fc), met.fc, candidate, search, now)
    ensures EndsWith(node.p, old(node.ledger), met.fc, node.fc, search, r, now)
    ensures MinedExactly(node.p, old(node.ledger), met.fc, node.fc, search, r, now)
  {
    hide Advanced, CommitVerdict, Consistent, Node.Core, Node.Orphaned, RootLaw, Searched, Ready, Insert, Pruned;
    hide Prepared, RunBetween, EndsWith;
    ghost var l0, fc0, ga := node.ledger, node.fc, node.genesisAccounts;
    var p := node.p;
    met, search := State(node.fc, node.orphans), Ok(None);
    states, lost := [met], [];
    NodeConsistent(node);
    var prepared := Prepare(node, miner, timestamp, limit);
    candidate := prepared;
    PreparedIsReady(p, l0, node.mempool.transactions, miner, timestamp, limit, prepared);
    if prepared.Err? {
      NoEvents(p, ga, met, l0, now);
      r := Failed(prepared.error);
      return;
    }
    var mined := MinePreparedBlock(p, prepared.value, prepared.value.difficulty, maxAttempts);
    search := mined;
    if mined.Ok? && mined.value.Some? { FoundIsReady(p, l0, prepared.value, maxAttempts, mined); }
    states, lost := PerformAll(node, others);
    met := State(node.fc, node.orphans);
    r := Finish(node, prepared, mined, now, l0, fc0);
  }

  lemma NoEvents(p: Protocol, ga: Accounts, s: State, l0: Ledger, now: u64)
    requires |l0.blocks| > 0
    ensures RunBetween(p, ga, [], [s], [], s, s)
    ensures forall e :: EndsWith(p, l0, s.fc, s.fc, Ok(None), Failed(e), now)
                        && MinedExactly(p, l0, s.fc, s.fc, Ok(None), Failed(e), now)
  {
  }

  lemma PreparedIsReady(p: Protocol, l: Ledger, pool: Pool, miner: Address, timestamp: u64, limit: nat,
                        r: Result<Block, NodeError>)
    requires |l.blocks| > 0 && Prepared(p, l, pool, miner, timestamp, limit, r)
    ensures r.Ok? ==> Ready(p, l, r.value)
  {
  }

  lemma NodeConsistent(node: Node)
    requires node.Valid()
    ensures RootLaw(node.p) && Consistent(node.p, node.genesisAccounts, node.ledger, node.fc)
  {
  }

  lemma FoundIsReady(p: Protocol, l: Ledger, candidate: Block, maxAttempts: u64, search: Result<Option<(Block, u64)>,
                     ConsensusError>)
    requires RootLaw(p) && Ready(p, l, candidate) && Searched(p, candidate, candidate.difficulty, maxAttempts, search)
    requires search.Ok? && search.value.Some?
    ensures Ready(p, l, search.value.value.0)
  {
    hide RootLaw, Ready;
    NonceKeepsReady(p, l, candidate, search.value.value.0.nonce);
  }

  lemma ReadyOnTip(p: Protocol, ga: Accounts, l: Ledger, fc: ForkChoice, b: Block)
    requires Consistent(p, ga, l, fc) && Ready(p, l, b)
    ensures |l.blocks| > 0 && b.prev == fc.best
  {
    hide AllReplay, Tree, Branch;
    ConsistentTip(p, ga, l, fc);
  }

  lemma ReadyChecks(p: Protocol, ga: Accounts, l: Ledger, fc: ForkChoice, b: Block, now: u64)
    requires Consistent(p, ga, l, fc) && Ready(p, l, b)
    ensures |l.blocks| > 0 && KnownParentVerdict(p, ga, l, fc, b, now) == CommitVerdict(p, l, fc, b, now)
  {
    CommitChecks(p, ga, l, fc, b, now);
  }
}
