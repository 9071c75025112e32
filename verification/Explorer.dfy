/** Block-by-block scans behind the explorer, against the stored indexes. */
module Explorer {
  import opened Types
  import opened Protocols
  import opened Ordered
  import opened ForkTree
  import opened Replays
  import opened TxIndex
  import opened Storages
  import opened Selection
  import opened Consistency
  import opened Nodes

  /** Inside one block every digest appears at most once. */
  ghost predicate OncePerBlock(p: Protocol, b: Block)
  {
    forall i, j :: 0 <= i < j < |b.txs| ==> p.txHash(b.txs[i]) != p.txHash(b.txs[j])
  }

  lemma {:induction false} ReplayOncePerBlock(p: Protocol, ga: Accounts, br: seq<Block>, k: nat)
    requires TransitionLaw(p) && HashLaw(p) && k < |br| && RootExecuted(ga, br[0]) && Replay(p, ga, br).Ok?
    ensures OncePerBlock(p, br[k])
  {
    var n := |br| - 1;
    if 0 < k == n {
      var before, after := Replay(p, ga, br[..n]).value, Replay(p, ga, br).value;
      assert TransitionStep(before.accounts, br[n], after.accounts);
    } else if k < n {
      ReplayOncePerBlock(p, ga, br[..n], k);
    }
  }

  /** On every executable branch the digest index and the scan from genesis agree. */
  lemma IndexIsScan(p: Protocol, ga: Accounts, br: seq<Block>, h: Hash)
    requires TransitionLaw(p) && HashLaw(p) && Heighted(br) && |br| > 0 && RootExecuted(ga, br[0])
    requires Replay(p, ga, br).Ok?
    ensures FirstInChain(p, br, h) == LastInChain(p, br, h)
  {
    hide FirstInChain, LastInChain, Replay, TransitionLaw;
    ChainLocations(p, br, h);
    if FirstInChain(p, br, h).Some? {
      IndexAgreesWithScan(p, br, h);
      ConfirmedOnce(p, ga, br, h);
      ReplayOncePerBlock(p, ga, br, FirstInChain(p, br, h).value.height);
    }
  }

  /** What holds of the chain of every valid node. */
  lemma NodeChain(node: Node)
    requires node.Valid()
    ensures var blocks := node.ledger.blocks;
            |blocks| > 0 && Heighted(blocks) && RootExecuted(node.genesisAccounts, blocks[0])
            && Replay(node.p, node.genesisAccounts, blocks) == Ok(node.ledger)
            && node.TipHeight() == |blocks| - 1
  {
    hide AllReplay, Replay, Branch;
    var p, ga, fc := node.p, node.genesisAccounts, node.fc;
    ConsistentTip(p, ga, node.ledger, fc);
    ReplayFacts(p, ga, fc.nodes, fc.best, node.ledger);
    BranchElements(p, fc.nodes, fc.best, 0);
  }

  /** The stored block at every height up to the tip is the ledger's. */
  lemma StoredAtHeight(node: Node, height: nat)
    requires node.Valid() && height < |node.ledger.blocks|
    ensures node.storage.LoadBlockByHeight(height) == Ok(Some(node.ledger.blocks[height]))
  {
    NodeChain(node);
  }

  ghost function Placed(blocks: seq<Block>, loc: Option<TxLocation>): (r: Option<(TxLocation, Tx)>)
  {
    if loc.Some? && loc.value.height < |blocks| && loc.value.index < |blocks[loc.value.height].txs|
    then Some((loc.value, blocks[loc.value.height].txs[loc.value.index])) else None
  }

  method ScanOneBlock(p: Protocol, b: Block, h: Hash) returns (r: Option<nat>)
    ensures r == FirstInBlock(p, b, |b.txs|, h)
  {
    for i := 0 to |b.txs|
      invariant FirstInBlock(p, b, i, h) == None
    {
      if p.txHash(b.txs[i]) == h {
        FirstStays(p, b, i + 1, h);
        return Some(i);
      }
    }
    return None;
  }

  lemma {:induction false} FirstStays(p: Protocol, b: Block, n: nat, h: Hash)
    requires n <= |b.txs| && FirstInBlock(p, b, n, h).Some?
    ensures FirstInBlock(p, b, |b.txs|, h) == FirstInBlock(p, b, n, h)
    decreases |b.txs| - n
  {
    if n < |b.txs| { FirstStays(p, b, n + 1, h); }
  }

  lemma {:induction false} FirstInPrefix(p: Protocol, blocks: seq<Block>, n: nat, h: Hash)
    requires n <= |blocks| && FirstInChain(p, blocks[..n], h).Some?
    ensures FirstInChain(p, blocks, h) == FirstInChain(p, blocks[..n], h)
    decreases |blocks| - n
  {
    if n < |blocks| {
      assert blocks[..n + 1][..n] == blocks[..n];
      FirstInPrefix(p, blocks, n + 1, h);
    } else {
      assert blocks[..n] == blocks;
    }
  }

  /** The scan for a confirmed transaction, heights upward. */
  method ScanForTransaction(node: Node, h: Hash) returns (r: Option<(TxLocation, Tx)>)
    requires node.Valid()
    ensures r == Placed(node.ledger.blocks, FirstInChain(node.p, node.ledger.blocks, h))
    ensures r.Some? <==> FirstInChain(node.p, node.ledger.blocks, h).Some?
  {
    hide Node.Core, Node.Orphaned, FirstInBlock, Replay;
    NodeChain(node);
    ghost var blocks := node.ledger.blocks;
    var p := node.p;
    for height := 0 to node.TipHeight() + 1
      invariant FirstInChain(p, blocks[..height], h) == None
    {
      StoredAtHeight(node, height);
      assert blocks[..height + 1][..height] == blocks[..height];
      var stored := node.storage.LoadBlockByHeight(height);
      var b := stored.value.value;
      var found := ScanOneBlock(p, b, h);
      if found.Some? {
        FirstInPrefix(p, blocks, height + 1, h);
        assert p.txHash(b.txs[found.value]) == h && found.value < |b.txs|;
        return Some((Locate(p, b, found.value), b.txs[found.value]));
      }
    }
    assert blocks[..node.TipHeight() + 1] == blocks;
    return None;
  }

  /** In every reachable state the digest index answers exactly as the scan does, without an
      integrity error. */
  method LookUpBothWays(node: Node, h: Hash)
    returns (scanned: Option<(TxLocation, Tx)>, indexed: Result<Option<(TxLocation, Tx)>, StorageError>)
    requires node.Valid()
    ensures indexed == Ok(scanned)
    ensures scanned == Placed(node.ledger.blocks, FirstInChain(node.p, node.ledger.blocks, h))
    ensures scanned == Placed(node.ledger.blocks, LastInChain(node.p, node.ledger.blocks, h))
    ensures scanned.Some? <==> exists i :: 0 <= i < |node.ledger.blocks| && Confirms(node.p, node.ledger.blocks[i], h)
  {
    hide Node.Orphaned, FirstInChain, LastInChain, Replay, AllReplay, Tree, Consistent, Confirms;
    NodeChain(node);
    ChainLocations(node.p, node.ledger.blocks, h);
    IndexIsScan(node.p, node.genesisAccounts, node.ledger.blocks, h);
    scanned := ScanForTransaction(node, h);
    indexed := node.storage.LoadTransaction(h);
  }

  datatype Finding = Waiting(tx: Tx) | Confirmed(at: TxLocation, tx: Tx)

  /** Where a transaction is: in the pool, on the active chain, or nowhere. */
  method FindTransaction(node: Node, h: Hash) returns (r: Option<Finding>)
    requires node.Valid()
    ensures h in node.mempool.transactions ==> r == Some(Waiting(node.mempool.transactions[h].tx))
    ensures h !in node.mempool.transactions ==>
              r == match Placed(node.ledger.blocks,
                                LastInChain(node.p, node.ledger.blocks,
                                h)) { case None => None case Some(f) => Some(Confirmed(f.0, f.1)) }
  {
    hide Node.Orphaned, FirstInChain, LastInChain, Replay, AllReplay, Tree, Consistent;
    if h in node.mempool.transactions { return Some(Waiting(node.mempool.transactions[h].tx)); }
    NodeChain(node);
    IndexIsScan(node.p, node.genesisAccounts, node.ledger.blocks, h);
    var scanned := ScanForTransaction(node, h);
    match scanned {
      case None => return None;
      case Some(f) => return Some(Confirmed(f.0, f.1));
    }
  }

  method ListBlock(p: Protocol, b: Block, address: Address) returns (rows: seq<AddressTxLocation>)
    ensures rows == ScanBlock(p, b, |b.txs|, address)
  {
    rows := [];
    for i := 0 to |b.txs|
      invariant rows == ScanBlock(p, b, i, address)
    {
      var t := b.txs[i];
      if t.from == address || t.to == address {
        rows := rows + [AddressTxLocation(p.txHash(t), b.height, p.hash(b), i, t.from == address)];
      }
    }
  }

  /** The scan for the confirmed transactions of an address. */
  method ScanAddress(node: Node, address: Address) returns (confirmed: seq<AddressTxLocation>)
    requires node.Valid()
    ensures confirmed == ScanChain(node.p, node.ledger.blocks, address)
  {
    hide Node.Core, Node.Orphaned, Replay;
    NodeChain(node);
    ghost var blocks := node.ledger.blocks;
    var p := node.p;
    confirmed := [];
    for height := 0 to node.TipHeight() + 1
      invariant confirmed == ScanChain(p, blocks[..height], address)
    {
      StoredAtHeight(node, height);
      assert blocks[..height + 1][..height] == blocks[..height];
      var rows := ListBlock(p, node.storage.LoadBlockByHeight(height).value.value, address);
      confirmed := confirmed + rows;
    }
    assert blocks[..node.TipHeight() + 1] == blocks;
  }

  /** In every reachable state the address index lists exactly what the scan lists, in the same order. */
  method ListBothWays(node: Node, address: Address)
    returns (scanned: seq<AddressTxLocation>, indexed: seq<AddressTxLocation>)
    requires node.Valid()
    ensures indexed == scanned
    ensures forall x :: x in scanned <==> ScannedAt(node.p, node.ledger.blocks, address, x)
  {
    hide Node.Orphaned, ScanChain, Replay, AllReplay, Tree, Consistent, ScannedAt;
    NodeChain(node);
    ScanChainRows(node.p, node.ledger.blocks, address);
    scanned := ScanAddress(node, address);
    indexed := node.storage.LoadAddressTransactionLocations(address);
  }

  // ----- The whole answer about an address -----

  datatype MinedRow = MinedRow(height: nat, hash: Hash, confirmations: nat, maturityHeight: nat, matured: bool,
                               coinbase: Coinbase, txCount: nat, timestamp: u64)
  datatype Activity = InChain(row: AddressTxLocation) | InPool(tx: Tx)

  function MinedEntry(p: Protocol, b: Block, height: u64, tip: nat, coinbase: Coinbase): (r: MinedRow)
  {
    var maturity := SatAdd64(height, p.rewardMaturity);
    MinedRow(height, p.hash(b), SatSub(tip, height) + 1, maturity, tip >= maturity, coinbase, |b.txs|, b.timestamp)
  }

  /** The rewarded blocks of a miner, oldest first. */
  ghost function MinedRows(p: Protocol, blocks: seq<Block>, tip: nat, address: Address): (r: seq<MinedRow>)
    requires Heighted(blocks)
  {
    if blocks == [] then []
    else
      var b := blocks[|blocks| - 1];
      MinedRows(p, blocks[..|blocks| - 1], tip, address)
      + if b.miner == address && b.coinbase.Some? then [MinedEntry(p, b, b.height, tip, b.coinbase.value)] else []
  }

  /** Exactly the rewarded blocks of the miner are listed, and a reward is mature once the tip has
      reached its maturity height. */
  lemma {:induction false} MinedRowsMembers(p: Protocol, blocks: seq<Block>, tip: nat, address: Address, row: MinedRow)
    requires Heighted(blocks)
    ensures row in MinedRows(p, blocks, tip, address) <==>
            && row.height < |blocks|
            && var b := blocks[row.height];
               && b.miner == address && b.coinbase == Some(row.coinbase) && row.hash == p.hash(b)
               && row.confirmations == (if row.height <= tip then tip - row.height + 1 else 1)
               && row.maturityHeight == SatAdd64(b.height, p.rewardMaturity)
               && (row.matured <==> row.maturityHeight <= tip)
               && row.txCount == |b.txs| && row.timestamp == b.timestamp
  {
    if blocks != [] {
      var n := |blocks| - 1;
      MinedRowsMembers(p, blocks[..n], tip, address, row);
      var rest := MinedRows(p, blocks[..n], tip, address);
      var b := blocks[n];
      var more :=
        if b.miner == address && b.coinbase.Some? then [MinedEntry(p, b, b.height, tip, b.coinbase.value)] else [];
      assert row in rest + more <==> row in rest || row in more;
    }
  }

  method ScanMined(node: Node, address: Address) returns (rows: seq<MinedRow>)
    requires node.Valid()
    ensures Heighted(node.ledger.blocks) && rows == MinedRows(node.p, node.ledger.blocks, node.TipHeight(), address)
  {
    hide Node.Core, Node.Orphaned, Replay;
    NodeChain(node);
    ghost var blocks := node.ledger.blocks;
    var p, tip := node.p, node.TipHeight();
    rows := [];
    for height := 0 to tip + 1
      invariant rows == MinedRows(p, blocks[..height], tip, address)
    {
      StoredAtHeight(node, height);
      assert blocks[..height + 1][..height] == blocks[..height];
      var b := node.storage.LoadBlockByHeight(height).value.value;
      if b.miner == address && b.coinbase.Some? {
        rows := rows + [MinedEntry(p, b, b.height, tip, b.coinbase.value)];
      }
    }
    assert blocks[..tip + 1] == blocks;
  }

  function Reversed<T>(s: seq<T>): (r: seq<T>)
    ensures |r| == |s| && forall i :: 0 <= i < |s| ==> r[i] == s[|s| - 1 - i]
  {
    if s == [] then [] else [s[|s| - 1]] + Reversed(s[..|s| - 1])
  }

  function Involving(txs: seq<Tx>, address: Address): (r: seq<Activity>)
  {
    if txs == [] then []
    else
      var t := txs[|txs| - 1];
      Involving(txs[..|txs| - 1], address) + OwnRow(t, address)
  }

  /** Exactly the transactions that the address sends or receives are listed, in the given order. */
  lemma {:induction false} InvolvingExactly(txs: seq<Tx>, address: Address, t: Tx)
    ensures InPool(t) in Involving(txs, address) <==> t in txs && (t.from == address || t.to == address)
    ensures |Involving(txs, address)| <= |txs|
  {
    if txs != [] {
      var n := |txs| - 1;
      InvolvingExactly(txs[..n], address, t);
      var rest, own := Involving(txs[..n], address), OwnRow(txs[n], address);
      assert txs == txs[..n] + [txs[n]];
      assert Involving(txs, address) == rest + own;
      assert InPool(t) in rest + own <==> InPool(t) in rest || InPool(t) in own;
    }
  }

  function OwnRow(t: Tx, address: Address): (r: seq<Activity>)
  {
    if t.from == address || t.to == address then [InPool(t)] else []
  }

  /** A longer list is listed part by part. */
  lemma {:induction false} InvolvingInOrder(a: seq<Tx>, b: seq<Tx>, address: Address)
    ensures Involving(a + b, address) == Involving(a, address) + Involving(b, address)
  {
    hide Involving;
    InvolvingStep(a + b, address);
    InvolvingStep(b, address);
    if b == [] {
      assert a + b == a;
    } else {
      var n := |b| - 1;
      InvolvingInOrder(a, b[..n], address);
      assert (a + b)[..|a| + n] == a + b[..n];
      Regroup(Involving(a, address), Involving(b[..n], address), OwnRow(b[n], address));
    }
  }

  lemma InvolvingStep(txs: seq<Tx>, address: Address)
    ensures txs == [] ==> Involving(txs, address) == []
    ensures txs != [] ==>
              Involving(txs, address) == Involving(txs[..|txs| - 1], address) + OwnRow(txs[|txs| - 1], address)
  {
  }

  function Rows(rows: seq<AddressTxLocation>): (r: seq<Activity>)
    ensures |r| == |rows| && forall i :: 0 <= i < |rows| ==> r[i] == InChain(rows[i])
  {
    seq(|rows|, i requires 0 <= i < |rows| => InChain(rows[i]))
  }

  /** The answer for an address, latest first: its rewarded blocks, its pending transactions, and its
      confirmed transactions exactly as the address index lists them. */
  method AddressActivity(node: Node, address: Address) returns (mined: seq<MinedRow>, activity: seq<Activity>)
    requires node.Valid()
    ensures Heighted(node.ledger.blocks)
    ensures mined == Reversed(MinedRows(node.p, node.ledger.blocks, node.TipHeight(), address))
    ensures activity == Reversed(Rows(ScanChain(node.p, node.ledger.blocks, address))
                                 + Involving(PoolTxs(node.mempool.transactions), address))
  {
    hide Node.Core, Node.Orphaned, ScanChain, MinedRows, Rows, PoolTxs, Reversed;
    var rows := ScanMined(node, address);
    var confirmed := ScanAddress(node, address);
    var txs := PoolTxs(node.mempool.transactions);
    var listed := Rows(confirmed);
    ghost var base := listed;
    assert base + Involving(txs[..0], address) == base;
    for i := 0 to |txs|
      invariant listed == base + Involving(txs[..i], address)
    {
      assert txs[..i + 1][..i] == txs[..i];
      if txs[i].from == address || txs[i].to == address {
        listed := listed + [InPool(txs[i])];
      }
    }
    assert txs[..|txs|] == txs;
    mined, activity := Reversed(rows), Reversed(listed);
  }
}
