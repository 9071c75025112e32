/** Starting a node on an empty database, and starting it again on what a node left there. */
module Restart {
  import opened Types
  import opened Protocols
  import opened ForkTree
  import opened Replays
  import opened Caches
  import opened TxIndex
  import opened Storages
  import opened MempoolRules
  import opened Mempools
  import opened Consistency
  import opened Orphanage
  import opened Indexing
  import opened Ranks
  import opened Nodes
  import opened Runs

  /** What a node with ledger `l` and tree `fc` leaves on disk. */
  ghost predicate LeftBehind(s: Storage, ga: Accounts, l: Ledger, fc: ForkChoice)
    reads s
  {
    && Lawful(s.p) && Consistent(s.p, ga, l, fc)
    && s.version == Some(STORAGE_VERSION) && s.genesisAccounts == Some(ga)
    && s.Holds(l) && s.blocksByHash == fc.nodes
  }

  /** In every reachable state the database can be picked up again. */
  lemma ValidNodeLeavesDisk(node: Node)
    requires node.Valid()
    ensures LeftBehind(node.storage, node.genesisAccounts, node.ledger, node.fc) && !Unused(node.storage)
    ensures Lawful(node.p) && node.storage.p == node.p && node.storage.version == Some(STORAGE_VERSION)
    ensures node.storage.blocksByHash == node.fc.nodes
  {
    hide Consistent, HashLaw, TransitionLaw, RootLaw, ConsensusLaw, GenesisLaw, IndexChain, ByHeight;
  }

  /** The tree of a stored chain lies inside the digest table. */
  lemma ChainWithin(p: Protocol, ga: Accounts, l: Ledger, fc: ForkChoice, built: ForkChoice)
    requires HashLaw(p) && TransitionLaw(p) && Consistent(p, ga, l, fc) && ChainTree(p, l.blocks, |l.blocks|, built)
    ensures Within(p, built, fc.nodes)
  {
    hide AllReplay, Replay, TransitionLaw;
    ConsistentTip(p, ga, l, fc);
    assert l.blocks[..|l.blocks|] == l.blocks;
    SavedBranchCompletesTable(p, fc.nodes, fc.best);
    var table := ByHash(p, l.blocks);
    forall h | h in table ensures h in fc.nodes && fc.nodes[h] == table[h] {
      assert (fc.nodes + table)[h] == table[h];
    }
  }

  /** Rebuilding fork choice from a chain that beats every part of itself chooses its last block. */
  lemma ChainTipIsBest(p: Protocol, above: Rank, blocks: seq<Block>, built: ForkChoice)
    requires RankRule(p, above) && HashLaw(p) && |blocks| > 0 && Chained(p, blocks)
    requires ChainTree(p, blocks, |blocks|, built) && Advanced(p, RootOnly(p, blocks[0]), built)
    requires LastOnTop(above, blocks)
    ensures built.best == p.hash(blocks[|blocks| - 1])
  {
    hide RankRule, Advanced;
    RootTree(p, blocks);
    RootOnTop(p, above, blocks[0]);
    AdvancedKeepsTop(p, above, RootOnly(p, blocks[0]), built);
    var n := |blocks|;
    assert blocks[..n] == blocks;
    ByHashElements(p, blocks);
    assert blocks[n - 1] in blocks;
    var i :| 0 <= i < n && blocks[i] == built.nodes[built.best];
    assert Linked(p, built.nodes, built.best);
    assert OnBranch(p, built.nodes, blocks, i) && OnBranch(p, built.nodes, blocks, n - 1);
  }

  lemma RootOnTop(p: Protocol, above: Rank, root: Block)
    requires RankRule(p, above) && Tree(p, RootOnly(p, root).nodes) && root.height == 0
    ensures TopRanked(p, above, RootOnly(p, root))
  {
  }

  /** Rebuilding the tree from disk chooses the same tip again. */
  lemma SameTip(p: Protocol, above: Rank, ga: Accounts, l: Ledger, fc: ForkChoice, built: ForkChoice,
                indexed: ForkChoice)
    requires Lawful(p) && Consistent(p, ga, l, fc) && RankRule(p, above) && TopRanked(p, above, fc)
    requires ChainTree(p, l.blocks, |l.blocks|, built) && Advanced(p, RootOnly(p, l.blocks[0]), built)
    requires Advanced(p, built, indexed) && indexed.nodes == fc.nodes
    ensures indexed == fc
  {
    hide RankRule, Advanced, ChainTree, Tree, AllReplay, Replay, Beats, LastOnTop;
    ConsistentTip(p, ga, l, fc);
    ReplayFacts(p, ga, fc.nodes, fc.best, l);
    ChainTipIsBest(p, above, l.blocks, built);
    ChainTreeTip(p, l.blocks, built);
    AdvancedKeepsBest(p, above, built, indexed);
  }

  lemma ChainTreeTip(p: Protocol, blocks: seq<Block>, built: ForkChoice)
    requires |blocks| > 0 && ChainTree(p, blocks, |blocks|, built)
    ensures built.best in built.nodes
  {
  }

  /** The accounts that branch replays start from; without a saved copy only a ledger at
      genesis can supply them. */
  function StartAccounts(saved: Option<Accounts>, l: Ledger): (r: Accounts)
  {
    match saved
    case Some(accounts) => accounts
    case None => if |l.blocks| > 0 && l.blocks[|l.blocks| - 1].height == 0 then l.accounts else map[]
  }

  /** Builds a node on a database whose canonical chain is `l`: its tree holds that chain and every
      stored block that can be attached to it. */
  method BuildNode(s: Storage, l: Ledger, config: Config) returns (node: Node, ghost built: ForkChoice)
    requires HashLaw(s.p) && l.blocks != [] && Chained(s.p, l.blocks) && Keyed(l.accounts)
    requires config.maxBytes < USIZE_MAX
    ensures fresh(node) && fresh(node.mempool) && fresh(node.cache) && node.storage == s && node.p == s.p
    ensures node.ledger == l && node.genesisAccounts == StartAccounts(s.genesisAccounts, l)
    ensures node.mempool.p == s.p && node.mempool.Valid() && node.mempool.transactions == map[] && node.cache.p == s.p
    ensures node.cache.Mirrors(l)
    ensures node.orphans == map[] && node.children == map[] && node.requests == [] && node.requested == {}
    ensures node.retryAt == map[]
    ensures Attached(s, l, node.fc.nodes)
    ensures ChainTree(s.p, l.blocks, |l.blocks|, built) && Advanced(s.p, RootOnly(s.p, l.blocks[0]), built)
    ensures Within(s.p, built, s.blocksByHash) ==> node.fc.nodes == s.blocksByHash && Advanced(s.p, built, node.fc)
  {
    hide Advanced, ChainTree, Within, ByHeight, ByHash, HashLaw, GrewBy, Exhausted, Attached, StartAccounts;
    var accounts := StartAccounts(s.genesisAccounts, l);
    node := new Node(s.p, l, s, accounts, config);
    built := node.fc;
    node.IndexStoredBlocks();
    ChainAttached(s, l, built, node.fc);
  }

  /** A node built on what a node with ledger `l` and tree `fc` left behind. */
  lemma StartedFromLeft(s: Storage, node: Node, built: ForkChoice, ga: Accounts, l: Ledger, fc: ForkChoice)
    requires LeftBehind(s, ga, l, fc) && node.storage == s && node.p == s.p && node.genesisAccounts == ga
    requires node.ledger == l
    requires node.mempool.p == s.p && node.mempool.Valid() && node.cache.p == s.p && node.cache.Mirrors(l)
    requires node.orphans == map[] && node.children == map[] && node.requests == [] && node.requested == {}
    requires node.retryAt == map[]
    requires l.blocks != [] && ChainTree(s.p, l.blocks, |l.blocks|, built)
    requires Advanced(s.p, RootOnly(s.p, l.blocks[0]), built)
    requires node.fc.nodes == fc.nodes && Advanced(s.p, built, node.fc)
    ensures node.Valid() <==> node.fc.best == fc.best
    ensures forall above: Rank :: RankRule(s.p, above) && TopRanked(s.p, above, fc) ==>
              node.fc == fc && node.Valid()
  {
    hide Consistent, Advanced, ChainTree, RankRule, TopRanked, HashLaw, TransitionLaw, RootLaw, ConsensusLaw;
    hide GenesisLaw, ByHeight, ByHash, IndexChain;
    EmptyAtRest(s.p, fc.nodes);
    if node.Valid() { LedgerNamesTip(s.p, ga, l, fc, node.fc); }
    forall above: Rank | RankRule(s.p, above) && TopRanked(s.p, above, fc) ensures node.fc == fc {
      SameTip(s.p, above, ga, l, fc, built, node.fc);
    }
  }

  /** On a database that a node left behind, the same block set comes back with an empty pool; the
      node is valid if and only if it chose the same tip, and fork choice by rank makes it
      choose the same. */
  method StartNode(s: Storage, l: Ledger, config: Config, ghost left: bool, ghost ga: Accounts, ghost fc: ForkChoice)
    returns (node: Node)
    requires Lawful(s.p) && l.blocks != [] && Chained(s.p, l.blocks) && Keyed(l.accounts) && config.maxBytes < USIZE_MAX
    requires left ==> LeftBehind(s, ga, l, fc)
    ensures fresh(node) && fresh(node.mempool) && fresh(node.cache) && node.storage == s && node.p == s.p
    ensures node.ledger == l && node.genesisAccounts == StartAccounts(s.genesisAccounts, l)
    ensures node.mempool.transactions == map[] && node.orphans == map[] && node.requests == []
    ensures Attached(s, l, node.fc.nodes)
    ensures left ==> LeftBehind(s, ga, l, fc) && node.genesisAccounts == ga && node.fc.nodes == fc.nodes
    ensures left ==> (node.Valid() <==> node.fc.best == fc.best)
    ensures left ==>
              forall above: Rank :: RankRule(s.p, above) && TopRanked(s.p, above, fc) ==>
                  node.fc == fc && node.Valid()
  {
    hide Consistent, Advanced, ChainTree, Within, RankRule, TopRanked, TransitionLaw, RootLaw, ConsensusLaw;
    hide GenesisLaw, HashLaw, Attached, Chained, Keyed;
    hide Storage.Holds, CoreCache.Mirrors, Mempool.Valid, Node.Valid;
    ghost var built;
    node, built := BuildNode(s, l, config);
    if left {
      ChainWithin(s.p, ga, l, fc, built);
      StartedFromLeft(s, node, built, ga, l, fc);
    }
  }

  /** The tree holds the chain, otherwise only stored blocks, and no stored block is left out whose
      parent is in the tree. */
  ghost predicate Attached(s: Storage, l: Ledger, nodes: map<Hash, Block>)
    reads s
  {
    && (forall b :: b in l.blocks ==> s.p.hash(b) in nodes && nodes[s.p.hash(b)] == b)
    && (forall h :: h in nodes ==> nodes[h] in l.blocks || nodes[h] in s.LoadBlocksByHash())
    && Exhausted(s.p, nodes, s.LoadBlocksByHash())
  }

  lemma ChainAttached(s: Storage, l: Ledger, built: ForkChoice, fc: ForkChoice)
    requires HashLaw(s.p) && ChainTree(s.p, l.blocks, |l.blocks|, built)
    requires GrewBy(s.p, built.nodes, fc.nodes, s.LoadBlocksByHash()) && Exhausted(s.p, fc.nodes, s.LoadBlocksByHash())
    ensures Attached(s, l, fc.nodes)
  {
    hide HashLaw, ByHash, Tree, Exhausted;
    ByHashElements(s.p, l.blocks);
    assert l.blocks[..|l.blocks|] == l.blocks;
  }

  /** The ledger determines the tip it belongs to. */
  lemma LedgerNamesTip(p: Protocol, ga: Accounts, l: Ledger, fc: ForkChoice, other: ForkChoice)
    requires Consistent(p, ga, l, fc) && Consistent(p, ga, l, other)
    ensures fc.best == other.best
  {
    hide AllReplay, Replay, Branch;
    ConsistentTip(p, ga, l, fc);
    ConsistentTip(p, ga, l, other);
  }

  lemma EmptyAtRest(p: Protocol, nodes: map<Hash, Block>)
    ensures AtRest(p, nodes, map[], map[]) && QueueOk([], {}, map[])
  {
  }

  /** A database left behind loads as the ledger it was saved from. */
  lemma DiskLoads(s: Storage, ga: Accounts, l: Ledger, fc: ForkChoice)
    requires LeftBehind(s, ga, l, fc)
    ensures s.Intact() && s.StoredBlocks() == l.blocks && Keyed(l.accounts) && |l.blocks| > 0 && Chained(s.p, l.blocks)
  {
    hide IndexChain, Tree, AllReplay, Replay, Branch;
    ReplayFacts(s.p, ga, fc.nodes, fc.best, l);
    HeldChainIsStored(s, l);
  }

  /** The state every node starts from. */
  function GenesisLedger(p: Protocol): (r: Ledger)
    requires p.transition(Ledger(map[], []), p.genesis).Ok?
  {
    Ledger(p.transition(Ledger(map[], []), p.genesis).value, [p.genesis])
  }

  lemma GenesisConsistent(p: Protocol)
    requires Lawful(p)
    ensures Apply(p, Ledger(map[], []), p.genesis) == Ok(GenesisLedger(p))
    ensures Consistent(p, GenesisLedger(p).accounts, GenesisLedger(p), RootOnly(p, p.genesis))
    ensures Keyed(GenesisLedger(p).accounts) && Fits(p.genesis)
  {
    var l := GenesisLedger(p);
    assert TransitionStep(map[], p.genesis, l.accounts);
    assert Tree(p, RootOnly(p, p.genesis).nodes);
    assert [] + [p.genesis] == [p.genesis];
  }

  /** A database nothing was ever written to, apart from the version mark. */
  ghost predicate Unused(s: Storage)
    reads s
  {
    Lawful(s.p) && s.EmptyDatabase() && s.tipHeight == None && s.tipHash == None
  }

  /** Writes genesis to a database without a tip; in an unused database that is what a node that
      knows only genesis leaves behind. */
  method SaveGenesis(s: Storage) returns (l: Ledger)
    requires Lawful(s.p) && s.version == Some(STORAGE_VERSION)
    modifies s
    ensures l == GenesisLedger(s.p) && s.Holds(l) && s.version == old(s.version)
    ensures s.genesisAccounts == Some(l.accounts)
    ensures s.blocksByHash == old(s.blocksByHash)[s.p.hash(s.p.genesis) := s.p.genesis]
    ensures old(Unused(s)) ==> LeftBehind(s, l.accounts, l, RootOnly(s.p, s.p.genesis))
  {
    hide Consistent, ByHeight, IndexChain, HashLaw, TransitionLaw, RootLaw, ConsensusLaw;
    GenesisConsistent(s.p);
    var p := s.p;
    l := Apply(p, Ledger(map[], []), p.genesis).value;
    ByHashStep(p, [], p.genesis);
    assert [] + [p.genesis] == [p.genesis];
    var saved := s.SaveLedger(l);
    s.SaveGenesisAccounts(l.accounts);
    assert old(s.blocksByHash) + map[p.hash(p.genesis) := p.genesis]
           == old(s.blocksByHash)[p.hash(p.genesis) := p.genesis];
  }

  lemma GenesisOnTop(p: Protocol, above: Rank)
    requires Lawful(p) && RankRule(p, above)
    ensures TopRanked(p, above, RootOnly(p, p.genesis))
  {
    GenesisConsistent(p);
    RootOnTop(p, above, p.genesis);
  }

  /** The ledger a start-up begins with: the stored one if there is a tip, else genesis. */
  ghost function StartLedger(s: Storage): (r: Ledger)
    requires Lawful(s.p) && (s.HasTip() ==> s.Intact())
    reads s
  {
    if s.HasTip() then Ledger(s.accounts, s.StoredBlocks()) else GenesisLedger(s.p)
  }

  ghost predicate Readable(s: Storage)
    reads s
  {
    && (s.version == Some(STORAGE_VERSION) || (s.version == None && s.EmptyDatabase()))
    && (s.HasTip() ==> s.Intact() && Keyed(s.accounts))
  }

  /** The ledger an opened database starts with; an empty one gets genesis. */
  method OpenLedger(s: Storage, ghost left: bool, ghost ga: Accounts, ghost l: Ledger, ghost fc: ForkChoice)
    returns (r: Result<Ledger, StorageError>)
    requires Lawful(s.p) && (left ==> Unused(s) || LeftBehind(s, ga, l, fc))
    requires left && Unused(s) ==> l == GenesisLedger(s.p) && ga == l.accounts && fc == RootOnly(s.p, s.p.genesis)
    modifies s
    ensures r.Ok? <==> old(Readable(s))
    ensures r.Ok? ==> r.value == old(StartLedger(s))
    ensures r.Ok? ==> r.value.blocks != [] && Chained(s.p, r.value.blocks) && Keyed(r.value.accounts)
    ensures r.Ok? && left ==> r.value == l && LeftBehind(s, ga, l, fc)
  {
    hide Consistent, HashLaw, TransitionLaw, RootLaw, ConsensusLaw, ByHeight, IndexChain;
    if left && LeftBehind(s, ga, l, fc) { DiskLoads(s, ga, l, fc); }
    GenesisConsistent(s.p);
    var supported := s.EnsureStorageVersion();
    if supported.Err? { return Err(supported.error); }
    if s.HasTip() {
      r := s.LoadLedger();
      if r.Ok? { IntactIsChained(s); }
    } else {
      var ledger := SaveGenesis(s);
      r := Ok(ledger);
    }
  }

  /** Opens any database. It fails exactly on an unsupported version, a broken chain or misfiled
      accounts. Otherwise the ledger is the stored one, or genesis without a tip. With `left` set
      the database is unused or was left behind by a node with ledger `l` and tree `fc`. */
  method InitOrLoad(s: Storage, config: Config, ghost left: bool, ghost ga: Accounts, ghost l: Ledger,
                    ghost fc: ForkChoice)
    returns (r: Result<Node, StorageError>)
    requires Lawful(s.p) && config.maxBytes < USIZE_MAX
    requires left ==> Unused(s) || LeftBehind(s, ga, l, fc)
    requires left && Unused(s) ==> l == GenesisLedger(s.p) && ga == l.accounts && fc == RootOnly(s.p, s.p.genesis)
    modifies s
    ensures r.Ok? <==> old(Readable(s))
    ensures r.Ok? ==> var node := r.value;
              fresh(node) && fresh(node.mempool) && fresh(node.cache) && node.storage == s && node.p == s.p
              && node.ledger == old(StartLedger(s))
              && node.genesisAccounts == StartAccounts(s.genesisAccounts, node.ledger)
              && node.mempool.transactions == map[] && node.orphans == map[] && Attached(s, node.ledger, node.fc.nodes)
    ensures r.Ok? && left ==> var node := r.value;
              LeftBehind(s, ga, l, fc) && node.ledger == l && node.genesisAccounts == ga && node.fc.nodes == fc.nodes
    ensures r.Ok? && left ==> (r.value.Valid() <==> r.value.fc.best == fc.best)
    ensures r.Ok? && left ==>
              forall above: Rank :: RankRule(s.p, above) && TopRanked(s.p, above, fc) ==>
                  r.value.fc == fc && r.value.Valid()
  {
    hide Consistent, TopRanked, RankRule, Lawful, Node.Valid, Keyed, Attached, StartAccounts, LeftBehind, Unused;
    hide Readable, StartLedger, Chained, GenesisLedger;
    var ledger := OpenLedger(s, left, ga, l, fc);
    if ledger.Err? { return Err(ledger.error); }
    var node := StartNode(s, ledger.value, config, left, ga, fc);
    return Ok(node);
  }

  /** Opens a database that is unused or was left behind by a node. */
  method Reopen(s: Storage, config: Config, ghost ga: Accounts, ghost l: Ledger, ghost fc: ForkChoice)
    returns (node: Node)
    requires Lawful(s.p) && config.maxBytes < USIZE_MAX && (Unused(s) || LeftBehind(s, ga, l, fc))
    requires s.version == None || s.version == Some(STORAGE_VERSION)
    requires Unused(s) ==> l == GenesisLedger(s.p) && ga == l.accounts && fc == RootOnly(s.p, s.p.genesis)
    modifies s
    ensures fresh(node) && fresh(node.mempool) && fresh(node.cache) && node.storage == s && node.p == s.p
    ensures node.genesisAccounts == ga
    ensures node.ledger == l && node.orphans == map[]
    ensures forall above: Rank :: RankRule(s.p, above) && TopRanked(s.p, above, fc) ==>
              node.fc == fc && node.Valid()
  {
    hide Consistent, RankRule, TopRanked, HashLaw, TransitionLaw, RootLaw, ConsensusLaw, Attached, Node.Valid;
    hide StartLedger, StartAccounts, ByHeight, IndexChain;
    if LeftBehind(s, ga, l, fc) { DiskLoads(s, ga, l, fc); }
    var opening := InitOrLoad(s, config, true, ga, l, fc);
    node := opening.value;
  }

  /** First start, any run, restart: the second node has the ledger, block set and tip of the first. */
  method RunAndRestart(s: Storage, config: Config, events: seq<Event>, ghost above: Rank)
    returns (first: Node, second: Node, ghost states: seq<State>, ghost lost: seq<set<Hash>>)
    requires Unused(s) && (s.version == None || s.version == Some(STORAGE_VERSION)) && config.maxBytes < USIZE_MAX
    requires RankRule(s.p, above)
    modifies s
    ensures second.Valid() && second.ledger == first.ledger && second.fc == first.fc
    ensures s.blocksByHash == second.fc.nodes
    ensures RunBetween(s.p, GenesisLedger(s.p).accounts, events, states, lost, State(RootOnly(s.p, s.p.genesis), map[]),
                       State(second.fc, first.orphans))
    ensures TopRanked(s.p, above, second.fc) && Advanced(s.p, RootOnly(s.p, s.p.genesis), second.fc)
  {
    hide TopRanked, RankRule, Advanced, Consistent, HashLaw, TransitionLaw, RootLaw, ConsensusLaw;
    hide Storage.EmptyDatabase, LeftBehind, Node.Core, Node.Orphaned, Run, GenesisLedger;
    ghost var l := GenesisLedger(s.p);
    first := Reopen(s, config, l.accounts, l, RootOnly(s.p, s.p.genesis));
    GenesisOnTop(s.p, above);
    states, lost := PerformAll(first, events);
    AdvancedKeepsTop(s.p, above, RootOnly(s.p, s.p.genesis), first.fc);
    ValidNodeLeavesDisk(first);
    second := Reopen(s, config, first.genesisAccounts, first.ledger, first.fc);
    ValidNodeLeavesDisk(second);
  }
}
