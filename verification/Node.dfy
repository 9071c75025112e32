/** The node: active ledger, block tree, orphan pool, mempool, cache and disk. */
module Nodes {
  import opened Types
  import opened Protocols
  import opened Ordered
  import opened ForkTree
  import opened Replays
  import opened Caches
  import opened TxIndex
  import opened Storages
  import opened MempoolRules
  import opened Mempools
  import opened Consistency
  import opened Orphanage
  import opened Drain
  import opened Delivery
  import opened Indexing
  import opened Readmission

  /** The tree of the first `n` blocks of a chain. */
  ghost predicate ChainTree(p: Protocol, blocks: seq<Block>, n: nat, fc: ForkChoice)
    requires n <= |blocks|
  {
    && Tree(p, fc.nodes) && fc.best in fc.nodes
    && fc.nodes == ByHash(p, blocks[..n])
    && (forall i {:trigger OnBranch(p, fc.nodes, blocks, i)} :: 0 <= i < n ==> OnBranch(p, fc.nodes, blocks, i))
  }

  /** The branch of block `i` is the chain up to it. */
  ghost predicate OnBranch(p: Protocol, nodes: map<Hash, Block>, blocks: seq<Block>, i: nat)
    requires Tree(p, nodes) && i < |blocks|
  {
    p.hash(blocks[i]) in nodes && Branch(p, nodes, p.hash(blocks[i])) == blocks[..i + 1]
  }

  /** The tree of the genesis block alone. */
  function RootOnly(p: Protocol, root: Block): (r: ForkChoice)
  {
    ForkChoice(map[p.hash(root) := root], p.hash(root))
  }

  /** Indexes the blocks of a chain, oldest first. */
  method BuildForkChoice(p: Protocol, blocks: seq<Block>) returns (fc: ForkChoice)
    requires HashLaw(p) && |blocks| > 0 && Chained(p, blocks)
    ensures ChainTree(p, blocks, |blocks|, fc)
    ensures Advanced(p, RootOnly(p, blocks[0]), fc)
  {
    fc := RootOnly(p, blocks[0]);
    assert blocks[..1] == [] + [blocks[0]];
    ByHashStep(p, [], blocks[0]);
    RootTree(p, blocks);
    hide Advanced, ChainTree, HashLaw;
    AdvancedReflexive(p, fc);
    for i := 1 to |blocks|
      invariant ChainTree(p, blocks, i, fc)
      invariant Advanced(p, RootOnly(p, blocks[0]), fc)
    {
      ChainTreeStep(p, blocks, i, fc);
      var larger := Insert(p, fc, blocks[i]).value;
      ChainTreeAdvances(p, blocks, i, fc, larger);
      AdvancedTransitive(p, RootOnly(p, blocks[0]), fc, larger);
      fc := larger;
    }
  }

  lemma RootTree(p: Protocol, blocks: seq<Block>)
    requires |blocks| > 0 && Chained(p, blocks)
    ensures ChainTree(p, blocks, 1, RootOnly(p, blocks[0]))
  {
    assert blocks[..1] == [] + [blocks[0]];
    ByHashStep(p, [], blocks[0]);
  }

  lemma ChainTreeAdvances(p: Protocol, blocks: seq<Block>, i: nat, fc: ForkChoice, larger: ForkChoice)
    requires i < |blocks| && ChainTree(p, blocks, i, fc) && ChainTree(p, blocks, i + 1, larger)
    requires Insert(p, fc, blocks[i]) == Ok(larger)
    ensures Advanced(p, fc, larger)
  {
    InsertAdvances(p, fc, blocks[i], larger);
  }

  /** The next block of a chain is new to the tree of the blocks below, and its parent is there. */
  lemma NextIsNew(p: Protocol, blocks: seq<Block>, i: nat, nodes: map<Hash, Block>)
    requires HashLaw(p) && 0 < i < |blocks| && Chained(p, blocks) && nodes == ByHash(p, blocks[..i])
    ensures p.hash(blocks[i]) !in nodes && blocks[i].prev in nodes && nodes[blocks[i].prev] == blocks[i - 1]
    ensures nodes[p.hash(blocks[i]) := blocks[i]] == ByHash(p, blocks[..i + 1])
  {
    ByHashElements(p, blocks[..i]);
    ByHashStep(p, blocks[..i], blocks[i]);
    assert blocks[..i + 1] == blocks[..i] + [blocks[i]];
    assert blocks[i - 1] in blocks[..i];
  }

  lemma ChainTreeStep(p: Protocol, blocks: seq<Block>, i: nat, fc: ForkChoice)
    requires HashLaw(p) && 0 < i < |blocks| && Chained(p, blocks) && ChainTree(p, blocks, i, fc)
    ensures Insert(p, fc, blocks[i]).Ok? && ChainTree(p, blocks, i + 1, Insert(p, fc, blocks[i]).value)
  {
    hide HashLaw, ByHash, Branch, Tree;
    var b, nodes := blocks[i], fc.nodes;
    var larger := nodes[p.hash(b) := b];
    NextIsNew(p, blocks, i, nodes);
    InsertKeepsTree(p, nodes, b);
    assert OnBranch(p, nodes, blocks, i - 1);
    assert blocks[..i + 1] == blocks[..i] + [b];
    forall k | 0 <= k < i + 1 ensures OnBranch(p, larger, blocks, k) {
      if k < i {
        assert OnBranch(p, nodes, blocks, k);
        BranchStable(p, nodes, larger, p.hash(blocks[k]));
      }
    }
  }

  class Node {
    const p: Protocol
    const genesisAccounts: Accounts
    const mempool: Mempool
    const cache: CoreCache
    const storage: Storage
    var ledger: Ledger
    var fc: ForkChoice
    var orphans: Orphans
    var children: Children
    var requests: seq<Hash>
    var requested: set<Hash>
    var retryAt: map<Hash, nat>

    /** Parts that never change: one protocol throughout, and the saved genesis accounts. */
    ghost predicate Wired()
      reads storage
    {
      && Lawful(p) && mempool.p == p && cache.p == p && storage.p == p
      && storage.version == Some(STORAGE_VERSION) && storage.genesisAccounts == Some(genesisAccounts)
    }

    /** Cache and canonical disk tables describe the active ledger. */
    ghost predicate Mirrored()
      reads `ledger, cache, storage
    {
      cache.Mirrors(ledger) && storage.Holds(ledger)
    }

    /** The chain part of the node is at rest: the ledger is the replay of the best branch, the
        cache and the disk agree with it, and the digest table is the block tree. */
    ghost predicate Core()
      reads `ledger, `fc, mempool, cache, storage
    {
      && Wired()
      && Consistent(p, genesisAccounts, ledger, fc)
      && Mirrored()
      && storage.blocksByHash == fc.nodes
      && mempool.Valid()
    }

    function TipHeight(): (r: nat)
      reads `ledger
    {
      if |ledger.blocks| == 0 then 0 else ledger.blocks[|ledger.blocks| - 1].height
    }

    function TipHash(): (r: Option<Hash>)
      reads `ledger
    {
      if |ledger.blocks| == 0 then None else Some(p.hash(ledger.blocks[|ledger.blocks| - 1]))
    }

    predicate ExtendsActiveTip(b: Block)
      reads `ledger
    {
      match TipHash()
      case Some(tip) => b.prev == tip
      case None => b.height == 0
    }

    constructor (p: Protocol, ledger: Ledger, storage: Storage, genesisAccounts: Accounts, config: Config)
      requires HashLaw(p) && |ledger.blocks| > 0 && Chained(p, ledger.blocks) && Keyed(ledger.accounts)
      requires config.maxBytes < USIZE_MAX
      ensures this.p == p && this.ledger == ledger && this.storage == storage && this.genesisAccounts == genesisAccounts
      ensures fresh(mempool) && mempool.p == p && mempool.Valid() && mempool.config == config
      ensures mempool.transactions == map[]
      ensures fresh(cache) && cache.p == p && cache.Mirrors(ledger)
      ensures ChainTree(p, ledger.blocks, |ledger.blocks|, fc) && Advanced(p, RootOnly(p, ledger.blocks[0]), fc)
      ensures orphans == map[] && children == map[] && requests == [] && requested == {} && retryAt == map[]
    {
      hide ChainTree, Advanced, HashLaw, ByHeight, ByHash;
      var built := BuildForkChoice(p, ledger.blocks);
      this.p, this.ledger, this.storage, this.genesisAccounts := p, ledger, storage, genesisAccounts;
      mempool := new Mempool(p, config);
      cache := new CoreCache(p);
      fc := built;
      orphans, children, requests, requested, retryAt := map[], map[], [], {}, map[];
      new;
      cache.RebuildFrom(ledger);
    }

    /** Adds the stored blocks to the tree, whatever the digest table holds. */
    method IndexStoredBlocks()
      modifies `fc
      ensures GrewBy(p, old(fc.nodes), fc.nodes, storage.LoadBlocksByHash())
      ensures Exhausted(p, fc.nodes, storage.LoadBlocksByHash())
      ensures old(Within(p, fc, storage.blocksByHash)) ==>
                Within(p, fc, storage.blocksByHash) && fc.nodes == storage.blocksByHash && Advanced(p, old(fc), fc)
    {
      hide Within, Advanced, Pending, GrewBy, Exhausted;
      var stored := storage.LoadBlocksByHash();
      if Within(p, fc, storage.blocksByHash) { StoredPending(p, fc, storage.blocksByHash); }
      fc := IndexAll(p, fc, stored, storage.blocksByHash);
    }

    // ----- Validation -----

    /** Replays the branch that ends at `tip` from the genesis accounts. */
    method LedgerForBranchTip(tip: Hash) returns (r: Result<Ledger, NodeError>)
      requires Tree(p, fc.nodes)
      ensures tip !in fc.nodes ==> r == Err(ReorgRequired)
      ensures tip in fc.nodes ==>
                match Replay(p, genesisAccounts, Branch(p, fc.nodes, tip))
                case Ok(l) => r == Ok(l)
                case Err(e) => r == Err(LedgerFailure(e))
    {
      var ancestors := AncestorHashes(p, fc.nodes, tip);
      var root := if |ancestors| > 0 then ancestors[|ancestors| - 1] else tip;
      if tip in fc.nodes {
        AncestorsReverseBranch(p, fc.nodes, tip);
        BranchElements(p, fc.nodes, tip, 0);
      }
      if root !in fc.nodes { return Err(ReorgRequired); }
      ghost var br := Branch(p, fc.nodes, tip);
      BranchAboveAncestor(p, fc.nodes, tip, 0);
      var l := Ledger(genesisAccounts, [fc.nodes[root]]);
      var branch := BranchFromAncestor(p, fc.nodes, root, tip);
      if branch.None? { return Err(ReorgRequired); }
      for i := 0 to |branch.value|
        invariant Replay(p, genesisAccounts, br[..i + 1]) == Ok(l)
      {
        assert br[..i + 2] == br[..i + 1] + [branch.value[i]];
        ReplayStep(p, genesisAccounts, br[..i + 1], branch.value[i]);
        var applied := Apply(p, l, branch.value[i]);
        if applied.Err? {
          ReplayFails(p, genesisAccounts, br, i + 2);
          return Err(LedgerFailure(applied.error));
        }
        l := applied.value;
      }
      assert br[..|branch.value| + 1] == br;
      return Ok(l);
    }

    /** Difficulty demanded on top of a branch, from a walk over its ancestors. */
    method NextDifficultyAfterBranchTip(tip: Hash) returns (r: Result<nat, NodeError>)
      requires Tree(p, fc.nodes)
      ensures tip !in fc.nodes ==> r == Err(ForkChoiceFailure(MissingParent))
      ensures tip in fc.nodes ==>
                match BranchDifficulty(p, Branch(p, fc.nodes, tip))
                case Ok(d) => r == Ok(d)
                case Err(e) => r == Err(ConsensusFailure(e))
      ensures tip in fc.nodes && fc.nodes[tip].height < p.interval ==> r == Ok(p.startDifficulty)
      ensures forall a :: tip in fc.nodes && a in fc.nodes && a in AncestorHashes(p, fc.nodes, tip)
                          && fc.nodes[a].height + p.interval == fc.nodes[tip].height ==>
                match p.retarget(fc.nodes[tip].difficulty, fc.nodes[a].timestamp, fc.nodes[tip].timestamp, p.interval)
                case Ok(d) => r == Ok(d)
                case Err(e) => r == Err(ConsensusFailure(e))
    {
      if tip !in fc.nodes { return Err(ForkChoiceFailure(MissingParent)); }
      var last := fc.nodes[tip];
      if last.height < p.interval { return Ok(p.startDifficulty); }
      var ancestors := AncestorHashes(p, fc.nodes, tip);
      ghost var br := Branch(p, fc.nodes, tip);
      var i: nat := 0;
      AncestorAt(p, fc.nodes, tip, i);
      while i < |ancestors| && !(ancestors[i] in fc.nodes && fc.nodes[ancestors[i]].height == last.height - p.interval)
        invariant i <= p.interval && |ancestors| == |br|
        invariant ancestors[i] in fc.nodes && fc.nodes[ancestors[i]] == br[|br| - 1 - i]
        invariant fc.nodes[ancestors[i]].height == last.height - i
      {
        i := i + 1;
        AncestorAt(p, fc.nodes, tip, i);
      }
      OneAtHeight(p, fc.nodes, tip, i);
      var first := fc.nodes[ancestors[i]];
      var d := p.retarget(last.difficulty, first.timestamp, last.timestamp, last.height - first.height);
      match d {
        case Ok(n) => return Ok(n);
        case Err(e) => return Err(ConsensusFailure(e));
      }
    }

    /** The miner's difficulty, from the stored heights. It is the one a validator demands on
        top of the active tip. */
    method NextDifficulty() returns (r: Result<nat, NodeError>)
      requires Core()
      ensures match BranchDifficulty(p, ledger.blocks)
              case Ok(d) => r == Ok(d)
              case Err(e) => r == Err(ConsensusFailure(e))
    {
      hide AllReplay, AllPassed, Replay, Branch, HashLaw, TransitionLaw, RootLaw, GenesisLaw, IndexChain;
      ConsistentTip(p, genesisAccounts, ledger, fc);
      ReplayFacts(p, genesisAccounts, fc.nodes, fc.best, ledger);
      var window := storage.DifficultyWindow(TipHeight(), p.interval);
      if window.value.None? { return Ok(p.startDifficulty); }
      var (first, last, count, current) := window.value.value;
      match p.retarget(current, first, last, count) {
        case Ok(d) => return Ok(d);
        case Err(e) => return Err(ConsensusFailure(e));
      }
    }

    /** Stored heights and the ancestor walk give the same difficulty at the active tip. */
    method DifficultyBothWays() returns (mined: Result<nat, NodeError>, demanded: Result<nat, NodeError>)
      requires Core()
      ensures mined == demanded
      ensures match BranchDifficulty(p, ledger.blocks)
              case Ok(d) => mined == Ok(d)
              case Err(e) => mined == Err(ConsensusFailure(e))
    {
      hide AllReplay, AllPassed, Replay, Branch, Lawful, IndexChain, Tree;
      CoreTree();
      ConsistentTip(p, genesisAccounts, ledger, fc);
      mined := NextDifficulty();
      demanded := NextDifficultyAfterBranchTip(fc.best);
    }

    /** Header checks against the parent's branch. */
    method ValidateBlockForKnownParent(b: Block, now: u64) returns (r: Option<NodeError>)
      requires Tree(p, fc.nodes)
      ensures b.height == 0 ==>
                r == match p.checkGenesis(b, now) { case Some(e) => Some(ConsensusFailure(e)) case None => None }
      ensures b.height > 0 && b.prev !in fc.nodes ==> r == Some(ForkChoiceFailure(MissingParent))
      ensures b.height > 0 && b.prev in fc.nodes ==> r == HeaderVerdict(p, Branch(p, fc.nodes, b.prev), b, now)
      ensures b.height > 0 && b.prev in fc.nodes ==> (r.None? <==> HeaderHolds(p, Branch(p, fc.nodes, b.prev), b, now))
      ensures b.height > 0 && b.prev in fc.nodes ==>
                HeaderRefusal(p, BranchDifficulty(p, Branch(p, fc.nodes, b.prev)), fc.nodes[b.prev], b, now, r)
    {
      if b.height == 0 {
        var genesis := p.checkGenesis(b, now);
        if genesis.Some? { return Some(ConsensusFailure(genesis.value)); }
        return None;
      }
      if b.prev !in fc.nodes { return Some(ForkChoiceFailure(MissingParent)); }
      if p.startDifficulty != 0 {
        var expected := NextDifficultyAfterBranchTip(b.prev);
        if expected.Err? { return Some(expected.error); }
        if b.difficulty != expected.value { return Some(ConsensusFailure(UnexpectedDifficulty)); }
      }
      var next := p.checkNext(b, fc.nodes[b.prev], now);
      if next.Some? { return Some(ConsensusFailure(next.value)); }
      if !p.checkpoint(b.height, p.hash(b)) { return Some(CheckpointMismatch); }
      return None;
    }

    /** Execution checks on a copy of the active ledger, or on a replay of the parent's branch. A node
        without genesis accounts refuses every block that does not extend its active tip. */
    method ValidateBlockStateForKnownParent(b: Block) returns (r: Option<NodeError>)
      requires Tree(p, fc.nodes)
      ensures ExtendsActiveTip(b) ==> r == StateVerdict(p, ledger, b) && StateRefusal(p, ledger, b, r)
      ensures !ExtendsActiveTip(b) && genesisAccounts == map[] ==> r == Some(MissingGenesisState)
      ensures !ExtendsActiveTip(b) && genesisAccounts != map[] && b.prev !in fc.nodes ==> r == Some(ReorgRequired)
      ensures !ExtendsActiveTip(b) && genesisAccounts != map[] && b.prev in fc.nodes ==>
                match Replay(p, genesisAccounts, Branch(p, fc.nodes, b.prev))
                case Err(e) => r == Some(LedgerFailure(e))
                case Ok(l) => r == StateVerdict(p, l, b) && StateRefusal(p, l, b, r)
    {
      if ExtendsActiveTip(b) { return StateVerdict(p, ledger, b); }
      if genesisAccounts == map[] { return Some(MissingGenesisState); }
      var replayed := LedgerForBranchTip(b.prev);
      if replayed.Err? { return Some(replayed.error); }
      return StateVerdict(p, replayed.value, b);
    }

    // ----- Accepting a block -----

    /** The highest block that two branches share. */
    method CommonAncestor(oldTip: Hash, newTip: Hash) returns (r: Option<Hash>)
      requires Tree(p, fc.nodes)
      ensures r.Some? <==> oldTip in fc.nodes && newTip in fc.nodes
      ensures r.Some? ==>
                r.value in AncestorHashes(p, fc.nodes, oldTip) && r.value in AncestorHashes(p, fc.nodes, newTip)
      ensures r.Some? ==>
                r.value in fc.nodes
                && forall k :: k in AncestorHashes(p, fc.nodes, oldTip) && k in AncestorHashes(p, fc.nodes, newTip) ==>
                k in fc.nodes && fc.nodes[k].height <= fc.nodes[r.value].height
    {
      var olds := AncestorHashes(p, fc.nodes, oldTip);
      var news := AncestorHashes(p, fc.nodes, newTip);
      if newTip in fc.nodes { AncestorsReverseBranch(p, fc.nodes, newTip); }
      if oldTip in fc.nodes && newTip in fc.nodes { SharedRoot(p, fc.nodes, oldTip, newTip); }
      for i := 0 to |news|
        invariant forall k :: 0 <= k < i ==> news[k] !in olds
      {
        AncestorAt(p, fc.nodes, newTip, i);
        if news[i] in olds {
          forall k | 0 <= k < |news|
            ensures news[k] in fc.nodes && fc.nodes[news[k]].height == fc.nodes[newTip].height - k
          {
            AncestorAt(p, fc.nodes, newTip, k);
          }
          return Some(news[i]);
        }
      }
      return None;
    }

    /** The tree has just taken in its new best tip; ledger, cache and disk still show the old one. */
    ghost predicate Behind()
      reads `ledger, `fc, mempool, cache, storage
    {
      && Wired()
      && Grown(p, genesisAccounts, fc.nodes) && fc.best in fc.nodes
      && Mirrored()
      && storage.blocksByHash == fc.nodes - {fc.best}
      && mempool.Valid()
    }

    /** Writes the ledger of the best branch to disk. */
    method SaveBestLedger()
      requires Wired() && Consistent(p, genesisAccounts, ledger, fc)
      requires storage.blocksByHash == fc.nodes - {fc.best} || storage.blocksByHash == fc.nodes
      modifies storage
      ensures Wired() && storage.Holds(ledger) && storage.blocksByHash == fc.nodes
    {
      hide Tree, AllReplay, AllPassed, Branch, Replay, RootLaw, ConsensusLaw, GenesisLaw, ByHeight;
      hide ByHash, IndexChain, Touched;
      ReplayFacts(p, genesisAccounts, fc.nodes, fc.best, ledger);
      SavedBranchCompletesTable(p, fc.nodes, fc.best);
      var saved := storage.SaveLedger(ledger);
    }

    /** The new best tip sits on the active tip: execute it and update everything in place. */
    method ExtendActiveTip(b: Block)
      requires Behind() && fc.nodes[fc.best] == b && b.height == |ledger.blocks| && Keyed(ledger.accounts)
      requires Apply(p, ledger, b).Ok?
      requires Replay(p, genesisAccounts, Branch(p, fc.nodes, fc.best)) == Apply(p, ledger, b)
      modifies `ledger, mempool, cache, storage
      ensures Core()
      ensures mempool.transactions == old(mempool.transactions) - TxHashes(p, b.txs)
    {
      hide Tree, AllReplay, AllPassed, Branch, Replay, HashLaw, RootLaw, ConsensusLaw, GenesisLaw;
      hide ByHeight, ByHash, IndexChain;
      hide Touched;
      ghost var before := ledger;
      ledger := Apply(p, ledger, b).value;
      ReplayFacts(p, genesisAccounts, fc.nodes, fc.best, ledger);
      mempool.RemoveConfirmed(b);
      cache.AdvanceTo(b, ledger, before);
      SaveBestLedger();
    }

    /** The new best tip is on another branch: rebuild everything from a replay of that branch,
        then offer the transactions of the abandoned blocks to the mempool again. */
    method ReorgToBestTip(now: u64) returns (r: Option<NodeError>)
      requires Behind() && TipHash().Some? && TipHash().value in fc.nodes
      modifies `ledger, mempool, cache, storage
      ensures genesisAccounts == map[] ==> r == Some(MissingGenesisState) && Behind() && ledger == old(ledger)
      ensures genesisAccounts != map[] ==> r == None && Core()
      ensures genesisAccounts != map[] ==>
                Readmitted(p, mempool.config, ledger, old(ledger).blocks, WinningHashes(), old(mempool.transactions),
                           mempool.transactions, now)
    {
      hide AllReplay, AllPassed, Branch, Replay, HashLaw, RootLaw, ConsensusLaw, GenesisLaw;
      hide ByHeight, ByHash, IndexChain, Touched;
      hide Linked, BranchFromAncestor, AncestorHashes;
      if genesisAccounts == map[] { return Some(MissingGenesisState); }
      var oldBlocks := ledger.blocks;
      var ancestor := CommonAncestor(TipHash().value, fc.best);
      AncestorHasBranch(p, fc.nodes, fc.best, ancestor.value);
      var winningBranch := BranchFromAncestor(p, fc.nodes, ancestor.value, fc.best);
      if winningBranch.None? { return Some(ReorgRequired); }
      BestReplays();
      var replayed := LedgerForBranchTip(fc.best);
      ledger := replayed.value;
      ReplayFacts(p, genesisAccounts, fc.nodes, fc.best, ledger);
      cache.RebuildFrom(ledger);
      SaveBestLedger();
      var winning := WinningHashes();
      Readmit(mempool, ledger, oldBlocks, winning, now);
      return None;
    }

    /** Digests of the best branch. */
    function WinningHashes(): (r: set<Hash>)
      requires Tree(p, fc.nodes)
      reads `fc
    {
      set h | h in AncestorHashes(p, fc.nodes, fc.best)
    }

    /** They are the digests of the active chain. */
    lemma WinningAreChain()
      requires Core()
      ensures forall h :: h in WinningHashes() <==>
                exists i :: 0 <= i < |ledger.blocks| && p.hash(ledger.blocks[i]) == h
    {
      hide Core, Consistent, Tree, Branch, AncestorHashes;
      CoreTree();
      ConsistentTip(p, genesisAccounts, ledger, fc);
      AncestorsReverseBranch(p, fc.nodes, fc.best);
      var ancestors, n := AncestorHashes(p, fc.nodes, fc.best), |ledger.blocks|;
      forall i | 0 <= i < n ensures p.hash(ledger.blocks[i]) in ancestors {
        assert ancestors[n - 1 - i] == p.hash(ledger.blocks[i]);
      }
      forall h | h in ancestors ensures exists i :: 0 <= i < n && p.hash(ledger.blocks[i]) == h {
        var k :| 0 <= k < n && ancestors[k] == h;
        assert p.hash(ledger.blocks[n - 1 - k]) == h;
      }
    }

    lemma BestReplays()
      requires Grown(p, genesisAccounts, fc.nodes) && fc.best in fc.nodes
      ensures Replay(p, genesisAccounts, Branch(p, fc.nodes, fc.best)).Ok?
    {
    }

    /** Both validation passes. */
    method Validate(b: Block, now: u64) returns (r: Option<NodeError>)
      requires Lawful(p) && Consistent(p, genesisAccounts, ledger, fc)
      ensures var verdict := KnownParentVerdict(p, genesisAccounts, ledger, fc, b, now);
              r == if verdict == Some(ForkChoiceFailure(DuplicateBlock)) then None else verdict
      ensures r.None? ==>
                b.height > 0 && b.prev in fc.nodes
                && Passes(p, genesisAccounts, Branch(p, fc.nodes, b.prev), b, now)
      ensures r.None? && b.prev != fc.best ==> genesisAccounts != map[]
    {
      hide AllReplay, AllPassed, Branch, Replay, RootLaw, TransitionLaw, GenesisLaw;
      ConsistentTip(p, genesisAccounts, ledger, fc);
      GenesisParentUnknown(p, genesisAccounts, ledger, fc, b, now);
      r := ValidateBlockForKnownParent(b, now);
      if r.Some? { return; }
      r := ValidateBlockStateForKnownParent(b);
    }

    /** A new block that does not change the best tip is only recorded. */
    method KeepAsSideBlock(b: Block, after: ForkChoice)
      requires Core() && Consistent(p, genesisAccounts, ledger, after) && after.nodes == fc.nodes[p.hash(b) := b]
      modifies `fc, storage
      ensures Core() && fc == after
    {
      hide Tree, AllReplay, AllPassed, Branch, Replay, Lawful, ByHeight, ByHash, IndexChain;
      fc := after;
      storage.SaveSideBlock(b);
    }

    /** A new block becomes the best tip, above the active tip or on another branch. */
    method AdoptTip(b: Block, after: ForkChoice, now: u64)
      requires Core() && p.hash(b) !in fc.nodes && b.height > 0
      requires after == ForkChoice(fc.nodes[p.hash(b) := b], p.hash(b)) && Grown(p, genesisAccounts, after.nodes)
      requires b.prev == fc.best ==> b.height == |ledger.blocks| && Apply(p, ledger, b).Ok?
      requires b.prev == fc.best ==>
                 Replay(p, genesisAccounts, Branch(p, after.nodes, after.best)) == Apply(p, ledger, b)
      requires b.prev != fc.best ==> genesisAccounts != map[]
      modifies `ledger, `fc, mempool, cache, storage
      ensures Core() && fc == after
      ensures b.prev == old(fc.best) ==> mempool.transactions == old(mempool.transactions) - TxHashes(p, b.txs)
      ensures b.prev != old(fc.best) ==>
                Readmitted(p, mempool.config, ledger, old(ledger).blocks, WinningHashes(), old(mempool.transactions),
                           mempool.transactions, now)
    {
      hide AllReplay, AllPassed, Branch, Replay, HashLaw, RootLaw, ConsensusLaw, GenesisLaw;
      hide ByHeight, ByHash, IndexChain;
      hide Readmitted, TxHashes, AncestorHashes;
      ConsistentTip(p, genesisAccounts, ledger, fc);
      ReplayFacts(p, genesisAccounts, fc.nodes, fc.best, ledger);
      assert after.nodes - {after.best} == fc.nodes;
      fc := after;
      if !ExtendsActiveTip(b) {
        var failed := ReorgToBestTip(now);
      } else {
        ExtendActiveTip(b);
      }
    }

    /** Accepts a block whose parent is known, or changes nothing. On success the block is in the
        tree and the ledger, cache and disk again describe the best branch. */
    method ApplyKnownParentBlock(b: Block, now: u64) returns (r: Option<NodeError>)
      requires Core()
      modifies `ledger, `fc, mempool, cache, storage
      ensures Core()
      ensures r == old(KnownParentVerdict(p, genesisAccounts, ledger, fc, b, now))
      ensures r.None? <==> old(Tree(p, fc.nodes) && Acceptable(p, genesisAccounts, fc, b, now))
      ensures fc == AfterBlock(p, genesisAccounts, old(fc), b, now)
      ensures r.Some? ==> ledger == old(ledger) && fc == old(fc) && unchanged(mempool, cache, storage)
      ensures r.None? ==> Insert(p, old(fc), b) == Ok(fc)
      ensures r.None? && fc.best == old(fc.best) ==> ledger == old(ledger) && unchanged(mempool)
      ensures r.None? && fc.best != old(fc.best) && b.prev == old(fc.best) ==>
                mempool.transactions == old(mempool.transactions) - TxHashes(p, b.txs)
      ensures r.None? && fc.best != old(fc.best) && b.prev != old(fc.best) ==>
                Readmitted(p, mempool.config, ledger, old(ledger).blocks, WinningHashes(), old(mempool.transactions),
                           mempool.transactions, now)
    {
      hide Tree, AllReplay, AllPassed, Branch, Replay, BranchVerdict, HashLaw, RootLaw;
      hide TransitionLaw, ConsensusLaw, GenesisLaw;
      hide StateVerdict, ByHeight, ByHash, IndexChain, Readmitted, TxHashes, AncestorHashes, Acceptable, Insert;
      AcceptedExactly(p, genesisAccounts, ledger, fc, b, now);
      r := Validate(b, now);
      if r.Some? { return; }
      r := InsertValidBlock(b, now);
    }

    /** Puts a block that passed validation into the tree and follows the best tip. */
    method InsertValidBlock(b: Block, now: u64) returns (r: Option<NodeError>)
      requires Core() && b.height > 0 && b.prev in fc.nodes
      requires Passes(p, genesisAccounts, Branch(p, fc.nodes, b.prev), b, now)
      requires b.prev != fc.best ==> genesisAccounts != map[]
      modifies `ledger, `fc, mempool, cache, storage
      ensures Core()
      ensures r == if p.hash(b) in old(fc.nodes) then Some(ForkChoiceFailure(DuplicateBlock)) else None
      ensures r.Some? ==> ledger == old(ledger) && fc == old(fc) && unchanged(mempool, cache, storage)
      ensures r.None? ==> Insert(p, old(fc), b) == Ok(fc)
      ensures r.None? && fc.best == old(fc.best) ==> ledger == old(ledger) && unchanged(mempool)
      ensures r.None? && fc.best != old(fc.best) && b.prev == old(fc.best) ==>
                mempool.transactions == old(mempool.transactions) - TxHashes(p, b.txs)
      ensures r.None? && fc.best != old(fc.best) && b.prev != old(fc.best) ==>
                Readmitted(p, mempool.config, ledger, old(ledger).blocks, WinningHashes(), old(mempool.transactions),
                           mempool.transactions, now)
    {
      hide Tree, AllReplay, AllPassed, Branch, Replay, BranchVerdict, HashLaw, RootLaw;
      hide TransitionLaw, ConsensusLaw, GenesisLaw;
      hide ByHeight, ByHash, IndexChain, Readmitted, TxHashes, AncestorHashes;
      var inserted := Insert(p, fc, b);
      if inserted.Err? { return Some(ForkChoiceFailure(inserted.error)); }
      AcceptKeepsConsistent(p, genesisAccounts, ledger, fc, b, now);
      ConsistentTip(p, genesisAccounts, ledger, fc);
      if inserted.value.best != p.hash(b) {
        KeepAsSideBlock(b, inserted.value);
      } else {
        AdoptTip(b, inserted.value, now);
      }
      return None;
    }

    method SubmitTransaction(t: Tx, now: u64) returns (r: Result<Hash, MempoolError>)
      requires Core()
      modifies mempool
      ensures Core() && mempool.totalBytes == mempool.Bytes()
      ensures MempoolRules.TipHeight(ledger) == TipHeight()
      ensures var pruned := Pruned(mempool.config, old(mempool.transactions), now);
              match Admission(p, mempool.config, pruned, Total(pruned, p.txSize), ledger, t, now)
              case Err(e) => r == Err(e) && mempool.transactions == pruned
              case Ok(replaced) =>
                r == Ok(p.txHash(t))
                && mempool.transactions == Without(pruned, replaced)[p.txHash(t) := Entry(t, now)]
    {
      hide Consistent, Lawful, Admission, Pruned, Total;
      r := mempool.InsertValidatedAt(ledger, t, now);
    }

    /** Writes the active ledger again; the disk already describes it. */
    method FlushToStorage()
      requires Core()
      modifies storage
      ensures Core()
    {
      hide Consistent, Lawful, ByHeight, IndexChain;
      SaveBestLedger();
    }

    // ----- Orphans -----

    /** The orphan pool and the request queue are at rest. */
    ghost predicate Orphaned()
      reads `fc, `orphans, `children, `requests, `requested, `retryAt
    {
      AtRest(p, fc.nodes, orphans, children) && QueueOk(requests, requested, retryAt)
    }

    ghost predicate Valid()
      reads this, mempool, cache, storage
    {
      Core() && Orphaned()
    }

    /** Drops orphans that waited too long or lie too far above the active tip. */
    method PruneExpiredOrphans(now: u64)
      requires Orphaned()
      modifies `orphans, `children
      ensures Orphaned() && orphans == Survivors(old(orphans), TipHeight(), now)
      ensures forall h :: h in orphans <==>
                && h in old(orphans) && now <= old(orphans)[h].receivedAt + ORPHAN_BLOCK_TTL_SECS
                && old(orphans)[h].block.height <= TipHeight() + MAX_ORPHAN_HEIGHT_DISTANCE
    {
      hide Indexed, QueueOk;
      SurvivorsKept(orphans, TipHeight(), now);
      orphans, children := PruneOrphans(p, orphans, children, TipHeight(), now);
    }

    method QueueMissingParentRequestAt(h: Hash, at: nat)
      requires QueueOk(requests, requested, retryAt)
      modifies `requests, `requested, `retryAt
      ensures QueueOk(requests, requested, retryAt)
      ensures h in fc.nodes ==> requests == old(requests) && retryAt == old(retryAt)
      ensures h !in fc.nodes ==> Asked(true, h, at, old(requests), old(retryAt), requests, retryAt)
      ensures h !in fc.nodes ==>
                && h in requests && h in retryAt && retryAt[h] <= at
                && (h in old(retryAt) ==> retryAt[h] <= old(retryAt)[h])
                && (retryAt[h] == at || (h in old(retryAt) && retryAt[h] == old(retryAt)[h]))
    {
      if h in fc.nodes { return; }
      retryAt := retryAt[h := if h in retryAt && retryAt[h] < at then retryAt[h] else at];
      if h !in requested {
        requested := requested + {h};
        requests := requests + [h];
      }
    }

    /** Splits the queue, keeping its order, into the requests that are due and the rest. */
    method DrainMissingParentRequests(now: u64) returns (ready: seq<Hash>)
      requires QueueOk(requests, requested, retryAt)
      modifies `requests, `requested, `retryAt
      ensures QueueOk(requests, requested, retryAt)
      ensures ready == Due(old(requests), old(retryAt), now) && requests == NotDue(old(requests), old(retryAt), now)
      ensures retryAt == old(retryAt) - Members(ready)
      ensures forall h :: h in ready <==> h in old(retryAt) && old(retryAt)[h] <= now
      ensures forall h :: h in retryAt ==> h in old(retryAt) && retryAt[h] == old(retryAt)[h] && retryAt[h] > now
    {
      var pending;
      ready, pending := SplitRequests(requests, retryAt, now);
      requested := requested - (set h | h in ready);
      retryAt := retryAt - (set h | h in ready);
      requests := pending;
    }

    method RetryMissingParentRequest(h: Hash, now: u64)
      requires QueueOk(requests, requested, retryAt)
      modifies `requests, `requested, `retryAt
      ensures QueueOk(requests, requested, retryAt)
      ensures h in fc.nodes ==> requests == old(requests) && retryAt == old(retryAt)
      ensures h !in fc.nodes ==>
                Asked(true, h, SatAdd64(now, MISSING_PARENT_RETRY_SECS), old(requests), old(retryAt), requests, retryAt)
    {
      QueueMissingParentRequestAt(h, SatAdd64(now, MISSING_PARENT_RETRY_SECS));
    }

    /** Keeps a block whose parent is unknown, making room if the pool is full, and asks for the parent. */
    method CacheOrphanBlock(b: Block, now: u64)
      requires Orphaned() && b.prev !in fc.nodes
      modifies `orphans, `children, `requests, `requested, `retryAt
      ensures Orphaned() && orphans == AfterCaching(p, fc.nodes, TipHeight(), old(orphans), b, now)
      ensures Asked(TakesIn(p, fc.nodes, TipHeight(), old(orphans), b, now), b.prev, now, old(requests), old(retryAt),
                    requests, retryAt)
    {
      hide AtRest, QueueOk, AfterCaching, TakesIn;
      var taken: bool;
      orphans, children, taken := OfferOrphan(p, fc.nodes, TipHeight(), orphans, children, b, now);
      if taken { QueueMissingParentRequestAt(b.prev, now); }
    }

    /** Accepts a block if its parent is known, and says what the outcome means for the block. */
    method AttemptBlock(b: Block, now: u64) returns (r: Option<NodeError>)
      requires Core()
      modifies `ledger, `fc, mempool, cache, storage
      ensures Core() && Tree(p, fc.nodes) && Advanced(p, old(fc), fc)
      ensures r == old(KnownParentVerdict(p, genesisAccounts, ledger, fc, b, now))
      ensures r.None? ==>
                p.hash(b) !in old(fc.nodes) && fc.nodes == old(fc.nodes)[p.hash(b) := b]
                && Accepted(p, genesisAccounts, fc.nodes, b, now)
      ensures r.None? ==> Insert(p, old(fc), b) == Ok(fc)
      ensures r.Some? ==> ledger == old(ledger) && fc == old(fc) && unchanged(mempool, cache, storage)
      ensures r == Some(ForkChoiceFailure(MissingParent)) <==> b.height > 0 && b.prev !in old(fc.nodes)
      ensures r.Some? && r != Some(ForkChoiceFailure(MissingParent)) ==>
                p.hash(b) in fc.nodes || b.height == 0 || Refused(p, genesisAccounts, fc.nodes, b, now)
    {
      hide KnownParentVerdict, Tree, Accepted, Refused, Readmitted, TxHashes, Insert, Core, Consistent, Advanced;
      CoreTree();
      ghost var l0, fc0 := ledger, fc;
      VerdictFacts(p, genesisAccounts, ledger, fc, b, now);
      AdvancedReflexive(p, fc);
      r := ApplyKnownParentBlock(b, now);
      CoreTree();
      if r.None? {
        InsertAdvances(p, fc0, b, fc);
        TipMoves(p, genesisAccounts, l0, fc0, ledger, fc, b);
        VerdictsStable(p, genesisAccounts, fc0.nodes, fc.nodes, b, now);
      }
    }

    /** Takes one orphan out of the pool and tries to accept it. */
    method TryOrphan(c: Hash, now: u64) returns (accepted: bool)
      requires Core() && c in orphans && orphans[c].block.prev in fc.nodes && p.hash(orphans[c].block) == c
      requires orphans[c].block.height > 0
      modifies `ledger, `fc, `orphans, mempool, cache, storage
      ensures Core() && orphans == old(orphans) - {c} && Tree(p, fc.nodes) && Advanced(p, old(fc), fc)
      ensures accepted ==>
                c !in old(fc.nodes) && fc.nodes == old(fc.nodes)[c := old(orphans)[c].block]
                && Accepted(p, genesisAccounts, fc.nodes, old(orphans)[c].block, now)
      ensures !accepted ==>
                fc == old(fc) && (c in fc.nodes || Refused(p, genesisAccounts, fc.nodes, old(orphans)[c].block, now))
    {
      hide KnownParentVerdict, Tree, Accepted, Refused, Core, Advanced;
      var b := orphans[c].block;
      orphans := orphans - {c};
      var r := AttemptBlock(b, now);
      // The parent is in the tree, so the arm of the source that caches the orphan again is never taken.
      if r == Some(ForkChoiceFailure(MissingParent)) { assert false; }
      accepted := r.None?;
    }

    /** A drain that began with `nodes0` and `orphans0`, with `pending` still to try. */
    ghost predicate Draining(nodes0: map<Hash, Block>, orphans0: Orphans, now: u64, pending: set<Hash>,
                             worklist: seq<Hash>)
      reads `fc, `orphans, `children
    {
      Midway(p, genesisAccounts, nodes0, orphans0, now, fc.nodes, orphans, children, pending, worklist)
    }

    /** Tries one pending orphan; if accepted it joins the worklist. */
    method TryChild(c: Hash, ghost rest: seq<Hash>, parent: Hash, worklist: seq<Hash>, now: u64,
                    ghost nodes0: map<Hash, Block>, ghost orphans0: Orphans)
      returns (next: seq<Hash>)
      requires Core() && parent in fc.nodes && Waiting(p, orphans, parent, c) && c !in rest
      requires Draining(nodes0, orphans0, now, {c} + Members(rest), worklist)
      modifies `ledger, `fc, `orphans, mempool, cache, storage
      ensures Core() && parent in fc.nodes && orphans == old(orphans) - {c} && Advanced(p, old(fc), fc)
      ensures Draining(nodes0, orphans0, now, Members(rest), next)
      ensures |next| + |orphans| <= |worklist| + |old(orphans)|
    {
      hide Midway, Lawful, Consistent, Accepted, Refused, Tree, Advanced;
      ghost var nodes, pool, pending := fc.nodes, orphans, {c} + Members(rest);
      assert pending - {c} == Members(rest);
      OneLess(orphans, c);
      var accepted := TryOrphan(c, now);
      if accepted {
        MidwayAccept(p, genesisAccounts, nodes0, orphans0, now, nodes, pool, children, pending, worklist, fc.nodes, c);
        next := worklist + [c];
      } else {
        MidwayRefuse(p, genesisAccounts, nodes0, orphans0, now, nodes, pool, children, pending, worklist, c);
        next := worklist;
      }
    }

    /** Tries the orphans of one parent in turn. */
    method TryChildren(list: seq<Hash>, parent: Hash, worklist: seq<Hash>, now: u64, ghost nodes0: map<Hash, Block>,
                       ghost orphans0: Orphans)
      returns (next: seq<Hash>)
      requires Core() && parent in fc.nodes && NoRepeats(list)
      requires forall c :: c in list ==> Waiting(p, orphans, parent, c)
      requires Draining(nodes0, orphans0, now, Members(list), worklist)
      modifies `ledger, `fc, `orphans, mempool, cache, storage
      ensures Core() && Draining(nodes0, orphans0, now, {}, next) && Advanced(p, old(fc), fc)
      ensures |next| + |orphans| <= |worklist| + |old(orphans)|
    {
      hide Midway, Core, Advanced;
      next := worklist;
      AdvancedReflexive(p, fc);
      assert list[0..] == list;
      for i := 0 to |list|
        invariant Core() && parent in fc.nodes && Advanced(p, old(fc), fc)
        invariant forall k :: i <= k < |list| ==> Waiting(p, orphans, parent, list[k])
        invariant Draining(nodes0, orphans0, now, Members(list[i..]), next)
        invariant |next| + |orphans| <= |worklist| + |old(orphans)|
      {
        assert list[i..] == [list[i]] + list[i + 1..];
        assert Members(list[i..]) == {list[i]} + Members(list[i + 1..]);
        ghost var before := fc;
        next := TryChild(list[i], list[i + 1..], parent, next, now, nodes0, orphans0);
        AdvancedTransitive(p, old(fc), before, fc);
      }
      assert Members(list[|list|..]) == {};
    }

    /** Pops one accepted block and tries its orphans. Each pop lowers the number of orphans plus
        the length of the worklist. */
    method PopWorklist(worklist: seq<Hash>, now: u64, ghost nodes0: map<Hash, Block>, ghost orphans0: Orphans)
      returns (next: seq<Hash>)
      requires Core() && worklist != [] && Draining(nodes0, orphans0, now, {}, worklist)
      modifies `ledger, `fc, `orphans, `children, mempool, cache, storage
      ensures Core() && Draining(nodes0, orphans0, now, {}, next) && Advanced(p, old(fc), fc)
      ensures |next| + |orphans| < |worklist| + |old(orphans)|
    {
      hide Midway, Core, Advanced, Waiting, NoRepeats;
      AdvancedReflexive(p, fc);
      var n := |worklist| - 1;
      var parent := worklist[n];
      MidwayPop(p, genesisAccounts, nodes0, orphans0, now, fc.nodes, orphans, children, worklist);
      next := worklist[..n];
      if parent in children {
        var list := children[parent];
        children := children - {parent};
        next := TryChildren(list, parent, next, now, nodes0, orphans0);
      }
    }

    /** Drains the worklist that starts with one accepted block. */
    method DrainWorklist(parentHash: Hash, now: u64)
      requires Core() && Draining(fc.nodes, orphans, now, {}, [parentHash])
      modifies `ledger, `fc, `orphans, `children, mempool, cache, storage
      ensures Core() && Draining(old(fc.nodes), old(orphans), now, {}, []) && Advanced(p, old(fc), fc)
    {
      hide Core, Advanced, Midway;
      AdvancedReflexive(p, fc);
      var worklist := [parentHash];
      while worklist != []
        invariant Core() && Draining(old(fc.nodes), old(orphans), now, {}, worklist) && Advanced(p, old(fc), fc)
        decreases |orphans| + |worklist|
      {
        ghost var before := fc;
        worklist := PopWorklist(worklist, now, old(fc.nodes), old(orphans));
        AdvancedTransitive(p, old(fc), before, fc);
      }
    }

    lemma CoreTree()
      requires Core()
      ensures Tree(p, fc.nodes) && Consistent(p, genesisAccounts, ledger, fc)
    {
    }

    lemma CoreTip()
      requires Core()
      ensures TipHeight() == BestHeight(fc)
    {
      hide AllReplay, AllPassed, Replay, Branch;
      ConsistentTip(p, genesisAccounts, ledger, fc);
    }

    /** Connects every orphan that now has a known ancestry. */
    method ProcessOrphansForParent(parentHash: Hash, now: u64)
      requires Core() && parentHash in fc.nodes && QueueOk(requests, requested, retryAt)
      requires Indexed(p, orphans, children, {}) && |orphans| <= MAX_ORPHAN_BLOCKS
      requires forall h :: h in orphans && orphans[h].block.prev in fc.nodes ==> orphans[h].block.prev == parentHash
      modifies `ledger, `fc, `orphans, `children, mempool, cache, storage
      ensures Valid() && Advanced(p, old(fc), fc)
      ensures Drained(p, genesisAccounts, old(fc.nodes), Survivors(old(orphans), old(TipHeight()), now), fc.nodes,
                      orphans, now)
    {
      hide Midway, Indexed, Drained, QueueOk, Survivors, Core, Advanced;
      CoreTree();
      SurvivorsKept(orphans, TipHeight(), now);
      orphans, children := PruneOrphans(p, orphans, children, TipHeight(), now);
      MidwayStart(p, genesisAccounts, now, fc.nodes, orphans, children, parentHash);
      ghost var nodes0, orphans0 := fc.nodes, orphans;
      DrainWorklist(parentHash, now);
      MidwayDone(p, genesisAccounts, nodes0, orphans0, now, fc.nodes, orphans, children);
      SubsetSize(orphans.Keys, orphans0.Keys);
    }

    // ----- Delivery -----

    /** The state right after a block was accepted and before its descendants are drained. */
    ghost predicate JustAccepted(b: Block, now: u64, nodes0: map<Hash, Block>)
      reads `ledger, `fc, `orphans, `children, `requests, `requested, `retryAt, mempool, cache, storage
    {
      && Core() && QueueOk(requests, requested, retryAt)
      && AtRest(p, nodes0, orphans, children)
      && fc.nodes == nodes0[p.hash(b) := b] && p.hash(b) !in nodes0
      && Tree(p, fc.nodes) && Accepted(p, genesisAccounts, fc.nodes, b, now)
    }

    /** Drains the descendants of a block that was just accepted. */
    method ConnectDescendants(b: Block, now: u64, ghost tip: nat, ghost nodes0: map<Hash, Block>,
                              ghost orphans0: Orphans)
      returns (ghost dropped: set<Hash>)
      requires JustAccepted(b, now, nodes0) && orphans == Survivors(orphans0, tip, now)
      modifies `ledger, `fc, `orphans, `children, mempool, cache, storage
      ensures Valid() && Advanced(p, old(fc), fc)
      ensures Delivered(p, genesisAccounts, now, nodes0, orphans0, b, fc.nodes, orphans, dropped)
      ensures DropsJustified(p, tip, old(TipHeight()), orphans0, b, now, dropped)
    {
      hide Core, Indexed, QueueOk, Tree, Accepted, Drained, Delivered, DropsJustified, Survivors, Advanced;
      ghost var nodes1, tip1 := fc.nodes, TipHeight();
      ProcessOrphansForParent(p.hash(b), now);
      dropped := DeliverAccepted(p, genesisAccounts, now, tip, tip1, nodes0, orphans0, b, nodes1, fc.nodes, orphans);
    }

    lemma NoneReady()
      requires Orphaned()
      ensures ParentsUnknown(fc.nodes, orphans)
    {
    }

    /** Takes in a block in any order. Repeats and blocks with unknown parents are not errors. */
    method ApplyBlock(b: Block, now: u64) returns (r: Option<NodeError>, ghost dropped: set<Hash>)
      requires Valid()
      modifies `ledger, `fc, `orphans, `children, `requests, `requested, `retryAt, mempool, cache, storage
      ensures Valid()
      ensures DeliveryStep(p, genesisAccounts, now, old(fc), old(orphans), b, fc, orphans, dropped)
      ensures r == Reported(old(KnownParentVerdict(p, genesisAccounts, ledger, fc, b, now)))
      ensures forall e :: r == Some(e) <==>
                old(KnownParentVerdict(p, genesisAccounts, ledger, fc, b, now)) == Some(e)
                && !e.ForkChoiceFailure? && e != LedgerFailure(DuplicateLedgerBlock)
      ensures r.None? <==>
              || (p.hash(b) !in old(fc.nodes) && p.hash(b) in fc.nodes)
              || (b.height > 0 && b.prev !in old(fc.nodes))
              || old(Tree(p, fc.nodes) && Repeats(p, genesisAccounts, fc, b, now))
              || old(KnownParentVerdict(p, genesisAccounts, ledger, fc, b, now))
                 == Some(LedgerFailure(DuplicateLedgerBlock))
      ensures old(KnownParentVerdict(p, genesisAccounts, ledger, fc, b, now)).Some? ==>
                ledger == old(ledger) && fc == old(fc) && unchanged(mempool, cache, storage)
      ensures old(KnownParentVerdict(p, genesisAccounts, ledger, fc, b, now)).None? ==>
                old(Insert(p, fc, b)).Ok? && Advanced(p, old(Insert(p, fc, b)).value, fc)
      ensures var asks := old(b.prev !in fc.nodes && b.height > 0
                              && TakesIn(p, fc.nodes, TipHeight(), Survivors(orphans, TipHeight(), now), b, now));
              Asked(asks, b.prev, now, old(requests), old(retryAt), requests, retryAt)
    {
      hide TakesIn, Core, AtRest, QueueOk, KnownParentVerdict, Tree, Accepted, Refused, Delivered, DropsJustified;
      hide Survivors, AfterCaching, Advanced, MidTip, BestHeight, Insert, Acceptable, Consistent, ParentsUnknown;
      hide Repeats, Reported;
      AdvancedReflexive(p, fc);
      ghost var l0, fc0, nodes0, orphans0, tip := ledger, fc, fc.nodes, orphans, TipHeight();
      CoreTip();
      CoreTree();
      AcceptedExactly(p, genesisAccounts, ledger, fc, b, now);
      PruneExpiredOrphans(now);
      r := AttemptBlock(b, now);
      CoreTip();
      match r {
        case None =>
          ghost var accepted := fc;
          dropped := ConnectDescendants(b, now, tip, nodes0, orphans0);
          AdvancedTransitive(p, fc0, accepted, fc);
          AdvancedGrows(p, accepted, fc);
          MidTipAccepted(p, fc0, b, accepted, fc);
        case Some(ForkChoiceFailure(MissingParent)) =>
          CacheOrphanBlock(b, now);
          MidTipStays(p, fc0, b);
          dropped := DeliverOrphaned(p, genesisAccounts, now, tip, nodes0, orphans0, b, orphans);
          r := None;
        case Some(ForkChoiceFailure(DuplicateBlock)) =>
          MidTipStays(p, fc0, b);
          dropped := DeliverRefused(p, genesisAccounts, now, tip, nodes0, orphans0, b);
          r := None;
        case Some(LedgerFailure(DuplicateLedgerBlock)) =>
          MidTipStays(p, fc0, b);
          dropped := DeliverRefused(p, genesisAccounts, now, tip, nodes0, orphans0, b);
          r := None;
        case Some(_) =>
          MidTipStays(p, fc0, b);
          dropped := DeliverRefused(p, genesisAccounts, now, tip, nodes0, orphans0, b);
      }
      NoneReady();
      ReportMeans(p, genesisAccounts, l0, fc0, b, now, fc, r);
    }
  }

  /** What a caller reads off the report of a delivery. */
  lemma ReportMeans(p: Protocol, ga: Accounts, l: Ledger, fc0: ForkChoice, b: Block, now: u64, fc: ForkChoice,
                    r: Option<NodeError>)
    requires Consistent(p, ga, l, fc0) && r == Reported(KnownParentVerdict(p, ga, l, fc0, b, now))
    requires KnownParentVerdict(p, ga, l, fc0, b, now).Some? ==> fc == fc0
    requires KnownParentVerdict(p, ga, l, fc0, b, now).None? ==>
               Insert(p, fc0, b).Ok? && Advanced(p, Insert(p, fc0, b).value, fc)
    ensures r.None? <==>
            || (p.hash(b) !in fc0.nodes && p.hash(b) in fc.nodes)
            || (b.height > 0 && b.prev !in fc0.nodes)
            || Repeats(p, ga, fc0, b, now)
            || KnownParentVerdict(p, ga, l, fc0, b, now) == Some(LedgerFailure(DuplicateLedgerBlock))
  {
    hide Consistent, KnownParentVerdict, Repeats, Tree, Advanced, Passes, HeaderHolds, HeaderRefusal, StateHolds;
    hide StateRefusal;
    VerdictKinds(p, ga, l, fc0, b, now);
    if KnownParentVerdict(p, ga, l, fc0, b, now).None? {
      AdvancedGrows(p, Insert(p, fc0, b).value, fc);
      assert p.hash(b) in Insert(p, fc0, b).value.nodes;
    } else if KnownParentVerdict(p, ga, l, fc0, b, now).value.ForkChoiceFailure? {
      var e := KnownParentVerdict(p, ga, l, fc0, b, now).value.fork;
      assert e.MissingParent? || e.DuplicateBlock?;
    }
  }

  lemma StoredPending(p: Protocol, fc: ForkChoice, all: map<Hash, Block>)
    requires Within(p, fc, all)
    ensures Pending(p, fc, all, ValuesInOrder(all))
  {
    forall b ensures b in ValuesInOrder(all) ==> Stored(p, all, b) {
      ValuesMembers(all, b);
      if h :| h in all && all[h] == b { assert Linked(p, all, h); }
    }
    forall h | h in all ensures all[h] in ValuesInOrder(all) { ValuesMembers(all, all[h]); }
  }

  lemma MidTipAccepted(p: Protocol, fc0: ForkChoice, b: Block, accepted: ForkChoice, fc: ForkChoice)
    requires Insert(p, fc0, b) == Ok(accepted) && Grows(accepted.nodes, fc.nodes)
    ensures MidTip(p, fc0, b, fc) == BestHeight(accepted)
  {
  }

  lemma MidTipStays(p: Protocol, fc: ForkChoice, b: Block)
    ensures MidTip(p, fc, b, fc) == BestHeight(fc)
  {
  }

  /** A verdict without the outcomes that `apply_block` does not report as errors. */
  function Reported(verdict: Option<NodeError>): (r: Option<NodeError>)
    ensures forall e :: r == Some(e) <==>
              verdict == Some(e) && !e.ForkChoiceFailure? && e != LedgerFailure(DuplicateLedgerBlock)
  {
    match verdict
    case Some(ForkChoiceFailure(_)) => None
    case Some(LedgerFailure(DuplicateLedgerBlock)) => None
    case other => other
  }

  /** A block that passes the genesis check names no known parent. */
  lemma GenesisParentUnknown(p: Protocol, ga: Accounts, l: Ledger, fc: ForkChoice, b: Block, now: u64)
    requires HashLaw(p) && ConsensusLaw(p) && Consistent(p, ga, l, fc)
    ensures p.checkGenesis(b, now).None? ==> b.prev !in fc.nodes
  {
    if b.prev in fc.nodes { assert Linked(p, fc.nodes, b.prev); }
  }
}
