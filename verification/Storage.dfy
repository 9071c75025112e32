/** The on-disk tables. Values are stored as themselves: their byte encoding is a bijection. */
module Storages {
  import opened Types
  import opened Protocols
  import opened Caches
  import opened Keys
  import opened Ordered
  import opened TxIndex

  const STORAGE_VERSION: nat := 1

  datatype StorageError =
    | Integrity(message: string)
    | MissingStorageVersion
    | UnsupportedStorageVersion(expected: nat, found: nat)

  method IndexBlock(p: Protocol, ix: Indexes, b: Block) returns (r: Result<Indexes, StorageError>)
    ensures r.Ok? <==> Fits(b)
    ensures r.Ok? ==> r.value == IndexPrefix(p, ix, b, |b.txs|)
  {
    var out := ix;
    for i := 0 to |b.txs|
      invariant i <= U32_MAX + 1
      invariant out == IndexPrefix(p, ix, b, i)
    {
      if i > U32_MAX { return Err(Integrity("transaction index exceeds u32")); }
      out := IndexTx(p, out, b, i);
    }
    return Ok(out);
  }

  /** The block tables a write transaction builds before it commits. */
  datatype Tables = Tables(byHeight: map<nat, Block>, byHash: map<Hash, Block>, indexes: Indexes)

  lemma UnionUpdate(known: map<Hash, Block>, m: map<Hash, Block>, h: Hash, b: Block)
    ensures known + m[h := b] == (known + m)[h := b]
  {
  }

  ghost function TablesOf(p: Protocol, blocks: seq<Block>, known: map<Hash, Block>): Tables
  {
    Tables(ByHeight(blocks), known + ByHash(p, blocks), IndexChain(p, blocks))
  }

  lemma TablesStep(p: Protocol, blocks: seq<Block>, b: Block, known: map<Hash, Block>)
    ensures var before := TablesOf(p, blocks, known);
            TablesOf(p, blocks + [b], known) ==
            Tables(before.byHeight[|blocks| := b], before.byHash[p.hash(b) := b],
                   IndexPrefix(p, before.indexes, b, |b.txs|))
  {
    ByHeightStep(blocks, b);
    ByHashStep(p, blocks, b);
    UnionUpdate(known, ByHash(p, blocks), p.hash(b), b);
    IndexChainStep(p, blocks, b);
  }

  method BuildTables(p: Protocol, blocks: seq<Block>, known: map<Hash, Block>) returns (r: Result<Tables, StorageError>)
    requires forall i :: 0 <= i < |blocks| ==> blocks[i].height == i
    ensures r.Ok? <==> forall i :: 0 <= i < |blocks| ==> Fits(blocks[i])
    ensures r.Ok? ==> r.value == TablesOf(p, blocks, known)
  {
    var t := Tables(map[], known, Indexes(map[], map[]));
    for i := 0 to |blocks|
      invariant t == TablesOf(p, blocks[..i], known)
      invariant forall j :: 0 <= j < i ==> Fits(blocks[j])
    {
      var b := blocks[i];
      assert blocks[..i + 1] == blocks[..i] + [b];
      TablesStep(p, blocks[..i], b, known);
      var indexed := IndexBlock(p, t.indexes, b);
      if indexed.Err? { return Err(indexed.error); }
      t := Tables(t.byHeight[b.height := b], t.byHash[p.hash(b) := b], indexed.value);
    }
    assert blocks[..|blocks|] == blocks;
    return Ok(t);
  }

  /** Consecutive heights from zero, hash-linked, with a zero root. */
  ghost predicate Chained(p: Protocol, blocks: seq<Block>)
  {
    && (forall i :: 0 <= i < |blocks| ==> blocks[i].height == i)
    && (forall i :: 0 < i < |blocks| ==> blocks[i].prev == p.hash(blocks[i - 1]))
    && (blocks != [] ==> blocks[0].prev == ZERO_HASH)
  }

  datatype Snapshot = Snapshot(height: u64, blockHash: Hash, stateRoot: Hash, accounts: Accounts)

  /** The snapshot rows of a saved ledger: one for the tip at genesis and at snapshot heights. */
  function SnapshotsOf(p: Protocol, l: Ledger): (r: map<nat, Snapshot>)
  {
    if l.blocks == [] then map[]
    else
      var tip := l.blocks[|l.blocks| - 1];
      if tip.height == 0 || p.isSnapshotHeight(tip.height)
      then map[tip.height as nat := Snapshot(tip.height, p.hash(tip), p.accountsRoot(l.accounts), l.accounts)]
      else map[]
  }

  class Storage {
    const p: Protocol
    var blocksByHeight: map<nat, Block>
    var blocksByHash: map<Hash, Block>
    var accounts: Accounts
    var genesisAccounts: Option<Accounts>
    var snapshots: map<nat, Snapshot>
    var indexes: Indexes
    var tipHeight: Option<u64>
    var tipHash: Option<Hash>
    var version: Option<nat>

    /** The canonical tables describe exactly `l`. */
    ghost predicate Holds(l: Ledger)
      reads this
    {
      && l.blocks != []
      && accounts == l.accounts
      && blocksByHeight == ByHeight(l.blocks)
      && indexes == IndexChain(p, l.blocks)
      && snapshots == SnapshotsOf(p, l)
      && tipHeight == Some(l.blocks[|l.blocks| - 1].height)
      && tipHash == Some(p.hash(l.blocks[|l.blocks| - 1]))
    }

    /** The block stored at height `i` carries that height. */
    predicate Present(i: nat)
      reads this
    {
      i in blocksByHeight && blocksByHeight[i].height == i
    }

    /** The block at height `i` is present and sits on the block below, or is a zero root. */
    predicate Row(i: nat)
      reads this
    {
      && Present(i)
      && (i == 0 ==> blocksByHeight[0].prev == ZERO_HASH)
      && (i > 0 ==> Present(i - 1) && blocksByHeight[i].prev == p.hash(blocksByHeight[i - 1]))
    }

    /** Heights `0..top` are present, hash-linked and zero-rooted, and end at `hash`. */
    ghost predicate StoredChain(top: nat, hash: Hash)
      reads this
    {
      && (forall i :: 0 <= i <= top ==> Row(i))
      && Row(top) && p.hash(blocksByHeight[top]) == hash
    }

    ghost predicate Intact()
      reads this
    {
      tipHeight.Some? && tipHash.Some? ==> StoredChain(tipHeight.value, tipHash.value)
    }

    constructor (p: Protocol)
      ensures this.p == p && version == None && tipHeight == None && tipHash == None && genesisAccounts == None
      ensures EmptyDatabase()
    {
      this.p := p;
      blocksByHeight, blocksByHash, accounts, indexes := map[], map[], map[], Indexes(map[], map[]);
      snapshots, genesisAccounts, tipHeight, tipHash, version := map[], None, None, None, None;
    }

    predicate HasTip()
      reads this
    {
      tipHeight.Some? && tipHash.Some?
    }

    predicate EmptyDatabase()
      reads this
    {
      blocksByHeight == map[] && blocksByHash == map[] && accounts == map[] && genesisAccounts == None
      && snapshots == map[] && indexes == Indexes(map[], map[])
    }

    method EnsureStorageVersion() returns (r: Result<(), StorageError>)
      modifies `version
      ensures r.Ok? <==> old(version) == Some(STORAGE_VERSION) || (old(version) == None && EmptyDatabase())
      ensures version == if r.Ok? then Some(STORAGE_VERSION) else old(version)
    {
      match version {
        case Some(v) =>
          if v != STORAGE_VERSION { return Err(UnsupportedStorageVersion(STORAGE_VERSION, v)); }
        case None =>
          if !EmptyDatabase() { return Err(MissingStorageVersion); }
          version := Some(STORAGE_VERSION);
      }
      return Ok(());
    }

    method SaveGenesisAccounts(table: Accounts)
      modifies `genesisAccounts
      ensures genesisAccounts == Some(table)
    {
      genesisAccounts := Some(table);
    }

    method SaveSideBlock(b: Block)
      modifies `blocksByHash
      ensures blocksByHash == old(blocksByHash)[p.hash(b) := b]
    {
      blocksByHash := blocksByHash[p.hash(b) := b];
    }

    /** Rewrites the canonical tables in one write transaction; the digest table only grows. */
    method SaveLedger(l: Ledger) returns (r: Result<(), StorageError>)
      requires Keyed(l.accounts)
      requires forall i :: 0 <= i < |l.blocks| ==> l.blocks[i].height == i
      modifies this
      ensures r.Ok? <==> forall i :: 0 <= i < |l.blocks| ==> Fits(l.blocks[i])
      ensures r.Err? ==> unchanged(this)
      ensures r.Ok? && l.blocks != [] ==> Holds(l)
      ensures r.Ok? ==> snapshots == SnapshotsOf(p, l)
      ensures r.Ok? ==> blocksByHash == old(blocksByHash) + ByHash(p, l.blocks)
      ensures r.Ok? ==> genesisAccounts == if |l.blocks| == 1 then Some(l.accounts) else old(genesisAccounts)
      ensures version == old(version)
    {
      var table := AccountTable(l.accounts);
      var built := BuildTables(p, l.blocks, blocksByHash);
      if built.Err? { return Err(built.error); }
      Commit(l, table, built.value);
      return Ok(());
    }

    /** Publishes the tables built by `SaveLedger`. */
    method Commit(l: Ledger, table: Accounts, built: Tables)
      modifies this
      ensures accounts == table && blocksByHeight == built.byHeight && blocksByHash == built.byHash
      ensures indexes == built.indexes
      ensures snapshots == SnapshotsOf(p, l)
      ensures l.blocks != [] ==>
                tipHeight == Some(l.blocks[|l.blocks| - 1].height) && tipHash == Some(p.hash(l.blocks[|l.blocks| - 1]))
      ensures l.blocks == [] ==> tipHeight == old(tipHeight) && tipHash == old(tipHash)
      ensures genesisAccounts == if |l.blocks| > 0 && l.blocks[|l.blocks| - 1].height == 0 then Some(l.accounts)
              else old(genesisAccounts)
      ensures version == old(version)
    {
      hide SnapshotsOf;
      var taken := SnapshotsOf(p, l);
      if |l.blocks| > 0 {
        var tip := l.blocks[|l.blocks| - 1];
        tipHeight, tipHash := Some(tip.height), Some(p.hash(tip));
        if tip.height == 0 { genesisAccounts := Some(l.accounts); }
      }
      accounts := table;
      blocksByHeight := built.byHeight;
      blocksByHash := built.byHash;
      indexes := built.indexes;
      snapshots := taken;
    }

    function LoadBlockByHeight(h: nat): (r: Result<Option<Block>, StorageError>)
      reads this
    {
      if h !in blocksByHeight then Ok(None)
      else if blocksByHeight[h].height != h then Err(Integrity("stored block height does not match height key"))
      else Ok(Some(blocksByHeight[h]))
    }

    method ValidateChainIntegrity() returns (r: Result<(), StorageError>)
      ensures r.Ok? <==> Intact()
    {
      if tipHeight.None? || tipHash.None? { return Ok(()); }
      var top: nat := tipHeight.value;
      if !Present(top) { return Err(Integrity("stored tip height block is missing")); }
      if p.hash(blocksByHeight[top]) != tipHash.value {
        return Err(Integrity("stored tip hash does not match tip height block"));
      }
      var height: nat := top + 1;
      var expected := tipHash.value;
      while height > 0
        invariant height <= top + 1
        invariant forall i :: height <= i <= top ==> Row(i)
        invariant height > 0 ==> Present(height - 1) && p.hash(blocksByHeight[height - 1]) == expected
      {
        height := height - 1;
        var b := blocksByHeight[height];
        if p.hash(b) != expected { return Err(Integrity("stored chain block hash does not match expected hash")); }
        if height == 0 {
          if b.prev != ZERO_HASH {
            assert !Row(0);
            return Err(Integrity("stored genesis block previous hash is not zero"));
          }
        } else {
          if !Present(height - 1) {
            assert !Row(height);
            return Err(Integrity("stored previous chain block is missing"));
          }
          if b.prev != p.hash(blocksByHeight[height - 1]) {
            assert !Row(height);
            return Err(Integrity("stored chain block previous hash is broken"));
          }
          expected := p.hash(blocksByHeight[height - 1]);
        }
      }
      return Ok(());
    }

    /** The stored canonical chain, genesis first. */
    ghost function StoredBlocks(): (r: seq<Block>)
      requires Intact()
      reads this
    {
      if tipHeight.Some? && tipHash.Some? then
        assert forall i :: 0 <= i <= tipHeight.value ==> i in blocksByHeight by {
          forall i | 0 <= i <= tipHeight.value ensures i in blocksByHeight { assert Row(i); }
        }
        Rows(blocksByHeight, tipHeight.value + 1)
      else []
    }

    method LoadLedger() returns (r: Result<Ledger, StorageError>)
      modifies `version
      ensures r.Ok? <==> version == Some(STORAGE_VERSION) && Intact() && Keyed(accounts)
      ensures r.Ok? ==> r.value == Ledger(accounts, StoredBlocks())
      ensures version == old(version) || (old(version) == None && EmptyDatabase() && version == Some(STORAGE_VERSION))
    {
      var supported := EnsureStorageVersion();
      if supported.Err? { return Err(supported.error); }
      var intact := ValidateChainIntegrity();
      if intact.Err? { return Err(intact.error); }
      var todo := accounts.Keys;
      var table: Accounts := map[];
      while todo != {}
        invariant todo <= accounts.Keys
        invariant table.Keys == accounts.Keys - todo
        invariant forall a :: a in table ==> table[a] == accounts[a] && accounts[a].address == a
      {
        var a :| a in todo;
        if accounts[a].address != a { return Err(Integrity("stored account address does not match account key")); }
        table := table[a := accounts[a]];
        todo := todo - {a};
      }
      assert table == accounts;
      var blocks := [];
      if tipHeight.Some? && tipHash.Some? {
        var top: nat := tipHeight.value;
        for height := 0 to top + 1
          invariant blocks == StoredBlocks()[..height]
        {
          assert Row(height);
          blocks := blocks + [blocksByHeight[height]];
        }
      }
      return Ok(Ledger(table, blocks));
    }

    /** A stored snapshot is only handed out under its own height and with a matching state root. On
        a saved ledger the one snapshot there is always passes and carries the ledger's accounts. */
    method LoadStateSnapshot(height: nat) returns (r: Result<Option<Snapshot>, StorageError>)
      ensures r == Ok(None) <==> height !in snapshots
      ensures r.Ok? && r.value.Some? <==>
                height in snapshots && snapshots[height].height == height
                  && p.accountsRoot(snapshots[height].accounts) == snapshots[height].stateRoot
      ensures forall l: Ledger :: Holds(l) ==>
                match r
                case Err(_) => false
                case Ok(None) =>
                  height != l.blocks[|l.blocks| - 1].height || (height != 0 && !p.isSnapshotHeight(height))
                case Ok(Some(snapshot)) =>
                  snapshot.accounts == l.accounts
                  && snapshot.blockHash == p.hash(l.blocks[|l.blocks| - 1])
    {
      hide IndexChain, ByHeight;
      if height !in snapshots { return Ok(None); }
      var snapshot := snapshots[height];
      if snapshot.height != height { return Err(Integrity("stored state snapshot height does not match height key")); }
      if p.accountsRoot(snapshot.accounts) != snapshot.stateRoot {
        return Err(Integrity("stored state snapshot root does not match accounts"));
      }
      return Ok(Some(snapshot));
    }

    method LoadTransaction(h: Hash) returns (r: Result<Option<(TxLocation, Tx)>, StorageError>)
      ensures forall l: Ledger :: Holds(l) && Heighted(l.blocks) ==>
                match LastInChain(p, l.blocks, h)
                case None => r == Ok(None)
                case Some(loc) =>
                  AtLocation(p, l.blocks, loc, h)
                  && r == Ok(Some((loc, l.blocks[loc.height].txs[loc.index])))
    {
      forall l: Ledger | Holds(l) && Heighted(l.blocks)
        ensures LastInChain(p, l.blocks, h) == if h in indexes.txs then Some(indexes.txs[h]) else None
        ensures h in indexes.txs ==> AtLocation(p, l.blocks, indexes.txs[h], h)
      {
        IndexFindsLast(p, l.blocks, h);
        ChainLocations(p, l.blocks, h);
      }
      if h !in indexes.txs { return Ok(None); }
      var loc := indexes.txs[h];
      var stored := LoadBlockByHeight(loc.height);
      if stored.Err? { return Err(stored.error); }
      if stored.value.None? { return Err(Integrity("indexed transaction block is missing")); }
      var b := stored.value.value;
      if p.hash(b) != loc.blockHash { return Err(Integrity("indexed transaction block hash mismatch")); }
      if loc.index >= |b.txs| { return Err(Integrity("indexed transaction position is missing")); }
      if p.txHash(b.txs[loc.index]) != h {
        return Err(Integrity("indexed transaction hash does not match transaction"));
      }
      return Ok(Some((loc, b.txs[loc.index])));
    }

    /** Timestamps, length and tip difficulty of the retarget window that ends at `tip`. */
    function DifficultyWindow(tip: nat, window: nat): (r: Result<Option<(u64, u64, nat, nat)>, StorageError>)
      reads this
    {
      if window == 0 || tip < window then Ok(None)
      else
        match LoadBlockByHeight(tip)
        case Err(e) => Err(e)
        case Ok(None) => Ok(None)
        case Ok(Some(last)) =>
          match LoadBlockByHeight(tip - window)
          case Err(e) => Err(e)
          case Ok(None) => Ok(None)
          case Ok(Some(first)) => Ok(Some((first.timestamp, last.timestamp, window, last.difficulty)))
    }

    /** All stored blocks in digest order. */
    function LoadBlocksByHash(): (r: seq<Block>)
      reads this
    {
      ValuesInOrder(blocksByHash)
    }

    /** The rows stored for an address, by height and position. */
    method LoadAddressTransactionLocations(address: Address) returns (r: seq<AddressTxLocation>)
      ensures forall l: Ledger :: Holds(l) && Heighted(l.blocks) ==> r == ScanChain(p, l.blocks, address)
    {
      var todo := set k | k in indexes.addresses && k.address == address;
      var found: seq<AddressTxLocation> := [];
      ghost var done: seq<AddressKey> := [];
      while todo != {}
        invariant todo <= indexes.addresses.Keys
        invariant forall k :: k in indexes.addresses && k.address == address ==> k in todo || k in done
        invariant forall k :: k in done ==> k in indexes.addresses && k.address == address && k !in todo
        invariant |done| == |found| && forall i :: 0 <= i < |done| ==> found[i] == indexes.addresses[done[i]]
        invariant forall i, j :: 0 <= i < j < |done| ==> done[i] != done[j]
      {
        var k :| k in todo;
        found, done, todo := found + [indexes.addresses[k]], done + [k], todo - {k};
      }
      r := SortBy(found, RowOrder);
      forall l: Ledger | Holds(l) && Heighted(l.blocks) ensures r == ScanChain(p, l.blocks, address) {
        SortedRowsAreScan(p, l.blocks, address, done, found);
      }
    }
  }

  /** A saved linked chain passes the integrity check and reads back as itself. */
  lemma HeldChainIsStored(s: Storage, l: Ledger)
    requires s.Holds(l) && Chained(s.p, l.blocks)
    ensures s.Intact() && s.StoredBlocks() == l.blocks
  {
    assert forall i :: 0 <= i < |l.blocks| ==> s.Row(i);
  }

  /** An intact store with a tip holds a linked chain. */
  lemma IntactIsChained(s: Storage)
    requires s.Intact() && s.tipHeight.Some? && s.tipHash.Some?
    ensures s.StoredBlocks() != [] && Chained(s.p, s.StoredBlocks())
  {
    var blocks := s.StoredBlocks();
    forall i | 0 <= i < |blocks|
      ensures blocks[i].height == i && (i > 0 ==> blocks[i].prev == s.p.hash(blocks[i - 1]))
      ensures (i == 0 ==> blocks[i].prev == ZERO_HASH)
    {
      assert s.Row(i);
    }
  }

  /** Saving a ledger and loading it again gives the same ledger, whatever the database held. */
  method SaveThenLoad(s: Storage, l: Ledger) returns (r: Result<Ledger, StorageError>)
    requires s.version == Some(STORAGE_VERSION) && Keyed(l.accounts) && l.blocks != [] && Chained(s.p, l.blocks)
    modifies s
    ensures (forall i :: 0 <= i < |l.blocks| ==> Fits(l.blocks[i])) ==> r == Ok(l)
    ensures !(forall i :: 0 <= i < |l.blocks| ==> Fits(l.blocks[i])) ==> r.Err? && unchanged(s)
  {
    hide IndexChain, Fits;
    var saved := s.SaveLedger(l);
    if saved.Err? { return Err(saved.error); }
    HeldChainIsStored(s, l);
    r := s.LoadLedger();
  }

  /** Order of the rows of one address: height, then position, received before sent. */
  predicate RowOrder(x: AddressTxLocation, y: AddressTxLocation)
  {
    Before(x, y) || (x.height == y.height && x.index == y.index && (x.sent ==> y.sent))
  }

  /** However the cursor visits the rows of an address, sorting them gives the scan. */
  lemma SortedRowsAreScan(p: Protocol, blocks: seq<Block>, address: Address, keys: seq<AddressKey>,
                          found: seq<AddressTxLocation>)
    requires Heighted(blocks)
    requires forall k :: k in keys <==> k in IndexChain(p, blocks).addresses && k.address == address
    requires |keys| == |found| && forall i :: 0 <= i < |keys| ==> found[i] == IndexChain(p, blocks).addresses[keys[i]]
    requires forall i, j :: 0 <= i < j < |keys| ==> keys[i] != keys[j]
    ensures SortBy(found, RowOrder) == ScanChain(p, blocks, address)
  {
    var sorted := SortBy(found, RowOrder);
    SortBySorted(found, RowOrder);
    ScanChainRows(p, blocks, address);
    RowsOfAddress(p, blocks, address, keys, found);
    forall x ensures x in sorted <==> x in found { assert x in multiset(sorted) <==> x in multiset(found); }
    var samePlace := (x: AddressTxLocation, y: AddressTxLocation) => x.height == y.height && x.index == y.index;
    SortByApart(found, RowOrder, samePlace);
    forall i, j | 0 <= i < j < |sorted| ensures Before(sorted[i], sorted[j]) {
      assert RowOrder(sorted[i], sorted[j]) && !samePlace(sorted[i], sorted[j]);
    }
    RisingUnique(sorted, ScanChain(p, blocks, address), Before);
  }

  lemma RowsOfAddress(p: Protocol, blocks: seq<Block>, address: Address, keys: seq<AddressKey>,
                      found: seq<AddressTxLocation>)
    requires Heighted(blocks)
    requires forall k :: k in keys <==> k in IndexChain(p, blocks).addresses && k.address == address
    requires |keys| == |found| && forall i :: 0 <= i < |keys| ==> found[i] == IndexChain(p, blocks).addresses[keys[i]]
    requires forall i, j :: 0 <= i < j < |keys| ==> keys[i] != keys[j]
    ensures forall x :: x in found <==> ScannedAt(p, blocks, address, x)
    ensures forall i, j :: 0 <= i < j < |found| ==>
              found[i].height != found[j].height || found[i].index != found[j].index
  {
    forall i | 0 <= i < |found|
      ensures ScannedAt(p, blocks, address, found[i])
      ensures keys[i] == AddressKey(address, found[i].height, found[i].index, found[i].sent)
    {
      assert keys[i] in keys;
      IndexRows(p, blocks, keys[i]);
    }
    forall x | ScannedAt(p, blocks, address, x) ensures x in found {
      var k := AddressKey(address, x.height, x.index, x.sent);
      IndexRows(p, blocks, k);
      assert k in keys;
    }
  }

  /** The first `n` rows of a height table, in order. */
  ghost function Rows(table: map<nat, Block>, n: nat): (r: seq<Block>)
    requires forall i :: 0 <= i < n ==> i in table
    ensures |r| == n && forall i :: 0 <= i < n ==> r[i] == table[i]
  {
    seq(n, i requires 0 <= i < n => table[i])
  }

  /** The accounts table written row by row. */
  method AccountTable(accounts: Accounts) returns (table: Accounts)
    requires Keyed(accounts)
    ensures table == accounts
  {
    table := map[];
    var todo := accounts.Keys;
    while todo != {}
      invariant todo <= accounts.Keys
      invariant table.Keys == accounts.Keys - todo
      invariant forall a :: a in table ==> table[a] == accounts[a]
    {
      var a :| a in todo;
      table := table[accounts[a].address := accounts[a]];
      todo := todo - {a};
    }
  }
}
