/** The transaction and address indexes, and the block-by-block scans they replace. */
module TxIndex {
  import opened Types
  import opened Protocols
  import opened Keys
  import opened Ordered

  datatype TxLocation = TxLocation(height: u64, blockHash: Hash, index: nat)
  datatype AddressTxLocation = AddressTxLocation(txHash: Hash, height: u64, blockHash: Hash, index: nat, sent: bool)
  datatype Indexes = Indexes(txs: map<Hash, TxLocation>, addresses: map<AddressKey, AddressTxLocation>)

  /** Positions inside a block are stored as 32-bit numbers. */
  predicate Fits(b: Block) { |b.txs| <= U32_MAX + 1 }

  /** The two index rows written for transaction `i` of a block. */
  function IndexTx(p: Protocol, ix: Indexes, b: Block, i: nat): (r: Indexes)
    requires i < |b.txs|
  {
    var t := b.txs[i];
    var h := p.txHash(t);
    var sent := AddressTxLocation(h, b.height, p.hash(b), i, true);
    var addresses := ix.addresses[AddressKey(t.from, b.height, i, true) := sent];
    Indexes(ix.txs[h := TxLocation(b.height, p.hash(b), i)],
            if t.to != t.from then addresses[AddressKey(t.to, b.height, i,
            false) := sent.(sent := false)] else addresses)
  }

  /** Rows written for the first `n` transactions of a block. */
  function IndexPrefix(p: Protocol, ix: Indexes, b: Block, n: nat): (r: Indexes)
    requires n <= |b.txs|
  {
    if n == 0 then ix else IndexTx(p, IndexPrefix(p, ix, b, n - 1), b, n - 1)
  }

  /** Rows written for a list of blocks. */
  ghost function IndexChain(p: Protocol, blocks: seq<Block>): (r: Indexes)
  {
    if blocks == [] then Indexes(map[], map[])
    else
      var b := blocks[|blocks| - 1];
      IndexPrefix(p, IndexChain(p, blocks[..|blocks| - 1]), b, |b.txs|)
  }

  lemma IndexChainStep(p: Protocol, blocks: seq<Block>, b: Block)
    ensures IndexChain(p, blocks + [b]) == IndexPrefix(p, IndexChain(p, blocks), b, |b.txs|)
  {
    assert (blocks + [b])[..|blocks|] == blocks;
  }

  // ----- Finding a transaction by digest -----

  function Locate(p: Protocol, b: Block, i: nat): (r: TxLocation)
  {
    TxLocation(b.height, p.hash(b), i)
  }

  ghost predicate Confirms(p: Protocol, b: Block, h: Hash)
  {
    exists i :: 0 <= i < |b.txs| && p.txHash(b.txs[i]) == h
  }

  /** The first of the first `n` transactions of a block with digest `h`. */
  function FirstInBlock(p: Protocol, b: Block, n: nat, h: Hash): (r: Option<nat>)
    requires n <= |b.txs|
    ensures r.Some? ==>
              r.value < n && p.txHash(b.txs[r.value]) == h && forall i :: 0 <= i < r.value ==> p.txHash(b.txs[i]) != h
    ensures r.None? ==> forall i :: 0 <= i < n ==> p.txHash(b.txs[i]) != h
  {
    if n == 0 then None
    else if FirstInBlock(p, b, n - 1, h).Some? then FirstInBlock(p, b, n - 1, h)
    else if p.txHash(b.txs[n - 1]) == h then Some(n - 1) else None
  }

  /** The last of the first `n` transactions of a block with digest `h`. */
  function LastInBlock(p: Protocol, b: Block, n: nat, h: Hash): (r: Option<nat>)
    requires n <= |b.txs|
    ensures r.Some? ==> r.value < n && p.txHash(b.txs[r.value]) == h
    ensures r.None? ==> forall i :: 0 <= i < n ==> p.txHash(b.txs[i]) != h
  {
    if n == 0 then None
    else if p.txHash(b.txs[n - 1]) == h then Some(n - 1) else LastInBlock(p, b, n - 1, h)
  }

  /** What a scan from genesis upwards finds. */
  ghost function FirstInChain(p: Protocol, blocks: seq<Block>, h: Hash): (r: Option<TxLocation>)
  {
    if blocks == [] then None
    else
      var below := FirstInChain(p, blocks[..|blocks| - 1], h);
      var b := blocks[|blocks| - 1];
      if below.Some? then below
      else match FirstInBlock(p, b, |b.txs|, h) { case None => None case Some(i) => Some(Locate(p, b, i)) }
  }

  /** The latest confirmation on the chain. */
  ghost function LastInChain(p: Protocol, blocks: seq<Block>, h: Hash): (r: Option<TxLocation>)
  {
    if blocks == [] then None
    else
      var b := blocks[|blocks| - 1];
      match LastInBlock(p, b, |b.txs|, h)
      case Some(i) => Some(Locate(p, b, i))
      case None => LastInChain(p, blocks[..|blocks| - 1], h)
  }

  lemma {:induction false} PrefixLookup(p: Protocol, ix: Indexes, b: Block, n: nat, h: Hash)
    requires n <= |b.txs|
    ensures var out := IndexPrefix(p, ix, b, n).txs;
            match LastInBlock(p, b, n, h)
            case Some(i) => h in out && out[h] == Locate(p, b, i)
            case None => (h in out <==> h in ix.txs) && (h in out ==> out[h] == ix.txs[h])
  {
    if n > 0 { PrefixLookup(p, ix, b, n - 1, h); }
  }

  /** The digest index always points at the latest confirmation. */
  lemma {:induction false} IndexFindsLast(p: Protocol, blocks: seq<Block>, h: Hash)
    ensures var txs := IndexChain(p, blocks).txs;
            LastInChain(p, blocks, h) == if h in txs then Some(txs[h]) else None
  {
    if blocks != [] {
      var below, b := blocks[..|blocks| - 1], blocks[|blocks| - 1];
      IndexFindsLast(p, below, h);
      PrefixLookup(p, IndexChain(p, below), b, |b.txs|, h);
    }
  }

  ghost predicate Heighted(blocks: seq<Block>)
  {
    forall i :: 0 <= i < |blocks| ==> blocks[i].height == i
  }

  /** Where the first and the last confirmation lie. */
  lemma {:induction false} ChainLocations(p: Protocol, blocks: seq<Block>, h: Hash)
    requires Heighted(blocks)
    ensures FirstInChain(p, blocks, h).Some? <==> exists i :: 0 <= i < |blocks| && Confirms(p, blocks[i], h)
    ensures LastInChain(p, blocks, h).Some? <==> FirstInChain(p, blocks, h).Some?
    ensures FirstInChain(p, blocks, h).Some? ==> AtLocation(p, blocks, FirstInChain(p, blocks, h).value, h)
    ensures LastInChain(p, blocks, h).Some? ==> AtLocation(p, blocks, LastInChain(p, blocks, h).value, h)
  {
    if blocks != [] {
      var below, b := blocks[..|blocks| - 1], blocks[|blocks| - 1];
      ChainLocations(p, below, h);
      assert Confirms(p, b, h) <==> FirstInBlock(p, b, |b.txs|, h).Some?;
      assert Confirms(p, b, h) <==> LastInBlock(p, b, |b.txs|, h).Some?;
      if FirstInChain(p, below, h).Some? {
        var i :| 0 <= i < |below| && Confirms(p, below[i], h);
        assert Confirms(p, blocks[i], h);
      } else if FirstInBlock(p, b, |b.txs|, h).Some? {
        assert Confirms(p, blocks[|blocks| - 1], h);
      } else {
        forall i | 0 <= i < |blocks| ensures !Confirms(p, blocks[i], h) {
          if i < |below| { assert blocks[i] == below[i]; }
        }
      }
    }
  }

  ghost predicate AtLocation(p: Protocol, blocks: seq<Block>, loc: TxLocation, h: Hash)
  {
    && loc.height < |blocks|
    && loc.blockHash == p.hash(blocks[loc.height])
    && loc.index < |blocks[loc.height].txs|
    && p.txHash(blocks[loc.height].txs[loc.index]) == h
  }

  /** The index and the scan name the same block exactly when the digest is confirmed in at
      most one block of the chain. */
  lemma {:induction false} IndexAgreesWithScan(p: Protocol, blocks: seq<Block>, h: Hash)
    requires Heighted(blocks) && FirstInChain(p, blocks, h).Some?
    ensures LastInChain(p, blocks, h).Some?
    ensures FirstInChain(p, blocks, h).value.height == LastInChain(p, blocks, h).value.height <==>
            forall i, j :: 0 <= i < j < |blocks| ==> !(Confirms(p, blocks[i], h) && Confirms(p, blocks[j], h))
  {
    hide AtLocation, FirstInBlock, LastInBlock;
    ChainLocations(p, blocks, h);
    var below, b := blocks[..|blocks| - 1], blocks[|blocks| - 1];
    ChainLocations(p, below, h);
    assert Confirms(p, b, h) <==> LastInBlock(p, b, |b.txs|, h).Some?;
    assert Confirms(p, b, h) <==> FirstInBlock(p, b, |b.txs|, h).Some?;
    hide Confirms;
    if LastInBlock(p, b, |b.txs|, h).Some? {
      assert Confirms(p, blocks[|blocks| - 1], h);
      if FirstInChain(p, below, h).Some? {
        var i :| 0 <= i < |below| && Confirms(p, below[i], h);
        assert Confirms(p, blocks[i], h);
      } else {
        forall i | 0 <= i < |below| ensures !Confirms(p, blocks[i], h) { assert blocks[i] == below[i]; }
      }
    } else {
      assert !Confirms(p, b, h);
      assert FirstInBlock(p, b, |b.txs|, h).None?;
      IndexAgreesWithScan(p, below, h);
      assert forall i :: 0 <= i < |below| ==> blocks[i] == below[i];
    }
  }

  // ----- Listing the transactions of an address -----

  /** The row that names `address` in transaction `i` of a block; a self-transfer is listed as sent. */
  function ScanRow(p: Protocol, b: Block, i: nat, address: Address): (r: Option<AddressTxLocation>)
    requires i < |b.txs|
    ensures r.Some? ==> r.value.height == b.height && r.value.index == i
  {
    var t := b.txs[i];
    if t.from == address then Some(AddressTxLocation(p.txHash(t), b.height, p.hash(b), i, true))
    else if t.to == address then Some(AddressTxLocation(p.txHash(t), b.height, p.hash(b), i, false))
    else None
  }

  function Listed(row: Option<AddressTxLocation>): (r: seq<AddressTxLocation>)
  {
    if row.Some? then [row.value] else []
  }

  function ScanBlock(p: Protocol, b: Block, n: nat, address: Address): (r: seq<AddressTxLocation>)
    requires n <= |b.txs|
  {
    if n == 0 then [] else ScanBlock(p, b, n - 1, address) + Listed(ScanRow(p, b, n - 1, address))
  }

  /** What a block-by-block scan from genesis lists for an address. */
  ghost function ScanChain(p: Protocol, blocks: seq<Block>, address: Address): (r: seq<AddressTxLocation>)
  {
    if blocks == [] then []
    else
      var b := blocks[|blocks| - 1];
      ScanChain(p, blocks[..|blocks| - 1], address) + ScanBlock(p, b, |b.txs|, address)
  }

  /** Strict order by height, then position. */
  predicate Before(x: AddressTxLocation, y: AddressTxLocation)
  {
    x.height < y.height || (x.height == y.height && x.index < y.index)
  }

  lemma {:induction false} ScanBlockRows(p: Protocol, b: Block, n: nat, address: Address)
    requires n <= |b.txs|
    ensures Rising(ScanBlock(p, b, n, address), Before)
    ensures forall x :: x in ScanBlock(p, b, n, address) <==>
              x.height == b.height && x.index < n && ScanRow(p, b, x.index, address) == Some(x)
  {
    hide ScanRow, Rising;
    if n == 0 {
      NoRows();
    } else {
      ScanBlockRows(p, b, n - 1, address);
      var rest, row := ScanBlock(p, b, n - 1, address), Listed(ScanRow(p, b, n - 1, address));
      assert forall x :: x in rest + row <==> x in rest || x in row;
      RisingAppends(rest, ScanRow(p, b, n - 1, address));
    }
  }

  lemma NoRows()
    ensures Rising<AddressTxLocation>([], Before)
  {
  }

  lemma RisingAppends(rest: seq<AddressTxLocation>, row: Option<AddressTxLocation>)
    requires Rising(rest, Before) && (row.Some? ==> forall x :: x in rest ==> Before(x, row.value))
    ensures Rising(rest + Listed(row), Before)
  {
  }

  lemma {:induction false} ScanChainRows(p: Protocol, blocks: seq<Block>, address: Address)
    requires Heighted(blocks)
    ensures Rising(ScanChain(p, blocks, address), Before)
    ensures forall x :: x in ScanChain(p, blocks, address) <==> ScannedAt(p, blocks, address, x)
  {
    hide Rising, ScanBlock, ScannedAt, Before;
    if blocks == [] {
      NoRows();
      forall x ensures !ScannedAt(p, blocks, address, x) { ScannedInLast(p, blocks, address, x); }
    } else {
      var below, b := blocks[..|blocks| - 1], blocks[|blocks| - 1];
      ScanChainRows(p, below, address);
      BlockRows(p, b, address);
      var rest, rows := ScanChain(p, below, address), ScanBlock(p, b, |b.txs|, address);
      forall x ensures x in rest + rows <==> ScannedAt(p, blocks, address, x) {
        assert x in rest + rows <==> x in rest || x in rows;
        ScannedInLast(p, blocks, address, x);
      }
      forall x | x in rest ensures x.height < b.height { ScannedInLast(p, below, address, x); }
      RisingJoins(rest, rows, b.height);
    }
  }

  /** A row of the last block, or of the chain below it. */
  lemma ScannedInLast(p: Protocol, blocks: seq<Block>, address: Address, x: AddressTxLocation)
    requires Heighted(blocks)
    ensures ScannedAt(p, blocks, address, x) ==> x.height < |blocks|
    ensures blocks != [] ==>
              (ScannedAt(p, blocks, address, x) <==>
               ScannedAt(p, blocks[..|blocks| - 1], address, x) || RowIn(p, blocks[|blocks| - 1], address, x))
  {
  }

  /** The row `x` of block `b` names the address. */
  ghost predicate RowIn(p: Protocol, b: Block, address: Address, x: AddressTxLocation)
  {
    && x.height == b.height && x.index < |b.txs|
    && var t := b.txs[x.index];
       && (t.from == address || t.to == address) && x.sent == (t.from == address)
       && x.txHash == p.txHash(t) && x.blockHash == p.hash(b)
  }

  lemma BlockRows(p: Protocol, b: Block, address: Address)
    ensures Rising(ScanBlock(p, b, |b.txs|, address), Before)
    ensures forall x :: x in ScanBlock(p, b, |b.txs|, address) <==> RowIn(p, b, address, x)
    ensures forall x :: x in ScanBlock(p, b, |b.txs|, address) ==> x.height == b.height
  {
    hide Rising, ScanBlock;
    ScanBlockRows(p, b, |b.txs|, address);
  }

  lemma RisingJoins(rest: seq<AddressTxLocation>, rows: seq<AddressTxLocation>, height: nat)
    requires Rising(rest, Before) && Rising(rows, Before)
    requires (forall x :: x in rest ==> x.height < height) && forall x :: x in rows ==> x.height == height
    ensures Rising(rest + rows, Before)
  {
  }

  ghost predicate ScannedAt(p: Protocol, blocks: seq<Block>, address: Address, x: AddressTxLocation)
  {
    x.height < |blocks| && x.height == blocks[x.height].height && RowIn(p, blocks[x.height], address, x)
  }

  /** The index holds row `k` for a block when `k` names one of its first `n` transactions. */
  ghost predicate RowOf(p: Protocol, b: Block, n: nat, k: AddressKey)
    requires n <= |b.txs|
  {
    k.height == b.height && k.index < n
    && match ScanRow(p, b, k.index, k.address) { case None => false case Some(x) => x.sent == k.sent }
  }

  lemma {:induction false} PrefixRows(p: Protocol, ix: Indexes, b: Block, n: nat, k: AddressKey)
    requires n <= |b.txs|
    ensures var out := IndexPrefix(p, ix, b, n).addresses;
            && (k in out <==> RowOf(p, b, n, k) || k in ix.addresses)
            && (RowOf(p, b, n, k) ==> Some(out[k]) == ScanRow(p, b, k.index, k.address))
            && (k in out && !RowOf(p, b, n, k) ==> out[k] == ix.addresses[k])
  {
    if n > 0 { PrefixRows(p, ix, b, n - 1, k); }
  }

  /** A row is in the address index exactly when the scan meets it, and they agree on it. */
  lemma {:induction false} IndexRows(p: Protocol, blocks: seq<Block>, k: AddressKey)
    requires Heighted(blocks)
    ensures var rows := IndexChain(p, blocks).addresses;
            && (k in rows <==> k.height < |blocks| && RowOf(p, blocks[k.height], |blocks[k.height].txs|, k))
            && (k in rows ==> rows[k].height == k.height && rows[k].index == k.index && rows[k].sent == k.sent
                              && ScannedAt(p, blocks, k.address, rows[k]))
  {
    if blocks != [] {
      var below, b := blocks[..|blocks| - 1], blocks[|blocks| - 1];
      IndexRows(p, below, k);
      PrefixRows(p, IndexChain(p, below), b, |b.txs|, k);
      if k.height < |below| { assert blocks[k.height] == below[k.height]; }
    }
  }

  // ----- Byte keys -----

  /** Every address named by a transaction has 20 bytes. */
  ghost predicate Addressed(b: Block)
  {
    forall t :: t in b.txs ==> t.from < Pow256(ADDRESS_SIZE) && t.to < Pow256(ADDRESS_SIZE)
  }

  /** Every row of the address index fits its fixed-width byte key. */
  lemma RowInRange(p: Protocol, blocks: seq<Block>, k: AddressKey)
    requires Heighted(blocks) && (forall b :: b in blocks ==> Fits(b) && Addressed(b))
    requires k in IndexChain(p, blocks).addresses
    ensures InRange(k)
  {
    hide Pow256, IndexChain;
    IndexRows(p, blocks, k);
    PowValues();
    var b := blocks[k.height];
    assert b in blocks && b.txs[k.index] in b.txs;
  }

  /** Keyed by bytes, the address index has the same rows: different rows never collide, and the
      cursor over an address's prefix meets exactly that address's rows. */
  lemma ByteKeysAreFaithful(p: Protocol, blocks: seq<Block>, j: AddressKey, k: AddressKey, address: Address)
    requires Heighted(blocks) && forall b :: b in blocks ==> Fits(b) && Addressed(b)
    requires j in IndexChain(p, blocks).addresses && k in IndexChain(p, blocks).addresses
    requires address < Pow256(ADDRESS_SIZE)
    ensures AddressTxKey(j) == AddressTxKey(k) ==> j == k
    ensures BigEndian(address, ADDRESS_SIZE) <= AddressTxKey(k) <==> k.address == address
  {
    hide Pow256, IndexChain, BigEndian, AddressTxKey;
    RowInRange(p, blocks, j);
    RowInRange(p, blocks, k);
    AddressPrefix(k, address);
    if AddressTxKey(j) == AddressTxKey(k) { AddressKeyInjective(j, k); }
  }
}
