/** The in-memory mirror of the active ledger. */
module Caches {
  import opened Types
  import opened Protocols

  /** A block list indexed by position. */
  function ByHeight(blocks: seq<Block>): (r: map<nat, Block>)
  {
    map i: nat | i < |blocks| :: blocks[i]
  }

  /** A block list indexed by digest. */
  ghost function ByHash(p: Protocol, blocks: seq<Block>): map<Hash, Block>
  {
    if blocks == [] then map[]
    else ByHash(p, blocks[..|blocks| - 1])[p.hash(blocks[|blocks| - 1]) := blocks[|blocks| - 1]]
  }

  lemma ByHeightStep(blocks: seq<Block>, b: Block)
    ensures ByHeight(blocks + [b]) == ByHeight(blocks)[|blocks| := b]
  {
  }

  lemma ByHashStep(p: Protocol, blocks: seq<Block>, b: Block)
    ensures ByHash(p, blocks + [b]) == ByHash(p, blocks)[p.hash(b) := b]
  {
    assert (blocks + [b])[..|blocks|] == blocks;
  }

  lemma {:induction false} ByHashElements(p: Protocol, blocks: seq<Block>)
    requires HashLaw(p)
    ensures forall h :: h in ByHash(p, blocks) ==> ByHash(p, blocks)[h] in blocks && p.hash(ByHash(p, blocks)[h]) == h
    ensures forall b :: b in blocks ==> p.hash(b) in ByHash(p, blocks) && ByHash(p, blocks)[p.hash(b)] == b
  {
    if blocks != [] {
      var last := |blocks| - 1;
      ByHashElements(p, blocks[..last]);
      assert blocks == blocks[..last] + [blocks[last]];
    }
  }

  class CoreCache {
    const p: Protocol
    var accounts: Accounts
    var blocksByHeight: map<nat, Block>
    var blocksByHash: map<Hash, Block>
    var tipHeight: Option<u64>
    var tipHash: Option<Hash>

    /** The cache indexes exactly the given blocks, and its tip is the last of them. */
    ghost predicate IndexesBlocks(blocks: seq<Block>)
      reads this
    {
      && blocksByHeight == ByHeight(blocks)
      && blocksByHash == ByHash(p, blocks)
      && (blocks == [] ==> tipHeight == None && tipHash == None)
      && (blocks != [] ==>
            tipHeight == Some(blocks[|blocks| - 1].height) && tipHash == Some(p.hash(blocks[|blocks| - 1])))
    }

    /** The cache holds exactly what a rebuild from `l` would hold. */
    ghost predicate Mirrors(l: Ledger)
      reads this
    {
      accounts == l.accounts && IndexesBlocks(l.blocks)
    }

    constructor (p: Protocol)
      ensures this.p == p && Mirrors(Ledger(map[], []))
    {
      this.p := p;
      accounts, blocksByHeight, blocksByHash, tipHeight, tipHash := map[], map[], map[], None, None;
    }

    method InsertAccount(account: Account)
      modifies `accounts
      ensures accounts == old(accounts)[account.address := account]
    {
      accounts := accounts[account.address := account];
    }

    method InsertBlock(b: Block)
      modifies `blocksByHeight, `blocksByHash, `tipHeight, `tipHash
      ensures forall blocks: seq<Block> :: old(IndexesBlocks(blocks)) && b.height == |blocks| ==>
                IndexesBlocks(blocks + [b])
    {
      blocksByHeight := blocksByHeight[b.height := b];
      blocksByHash := blocksByHash[p.hash(b) := b];
      tipHeight := Some(b.height);
      tipHash := Some(p.hash(b));
      forall blocks: seq<Block> | old(IndexesBlocks(blocks)) && b.height == |blocks|
        ensures IndexesBlocks(blocks + [b])
      {
        ByHeightStep(blocks, b);
        ByHashStep(p, blocks, b);
      }
    }

    method InsertAccounts(source: Accounts)
      requires Keyed(source)
      modifies `accounts
      ensures accounts == old(accounts) + source
    {
      var todo := source.Keys;
      while todo != {}
        invariant todo <= source.Keys
        invariant accounts == old(accounts) + (source - todo)
      {
        var a :| a in todo;
        InsertAccount(source[a]);
        todo := todo - {a};
      }
    }

    method InsertBlocks(blocks: seq<Block>)
      requires IndexesBlocks([])
      requires forall i :: 0 <= i < |blocks| ==> blocks[i].height == i
      modifies `blocksByHeight, `blocksByHash, `tipHeight, `tipHash
      ensures IndexesBlocks(blocks)
    {
      hide ByHeight, ByHash;
      for i := 0 to |blocks|
        invariant IndexesBlocks(blocks[..i])
      {
        InsertBlock(blocks[i]);
        assert blocks[..i + 1] == blocks[..i] + [blocks[i]];
      }
      assert blocks[..|blocks|] == blocks;
    }

    /** `CoreCache::from_ledger`, rebuilding this cache in place. */
    method RebuildFrom(l: Ledger)
      requires Keyed(l.accounts)
      requires forall i :: 0 <= i < |l.blocks| ==> l.blocks[i].height == i
      modifies this
      ensures Mirrors(l)
    {
      accounts, blocksByHeight, blocksByHash, tipHeight, tipHash := map[], map[], map[], None, None;
      InsertAccounts(l.accounts);
      InsertBlocks(l.blocks);
    }

    /** Copies one account from a ledger, if it exists there. */
    method RefreshAccount(a: Address, source: Accounts)
      requires Keyed(source)
      modifies `accounts
      ensures accounts == Refreshed(old(accounts), source, a)
    {
      if a in source { InsertAccount(source[a]); }
    }

    /** Refreshes the accounts of a block's senders, receivers and miner from the new ledger. */
    method RefreshTouched(b: Block, after: Accounts)
      requires Keyed(after) && accounts.Keys <= after.Keys
      modifies `accounts
      ensures Between(old(accounts), accounts, after)
      ensures AllFresh(accounts, after, b.txs) && Fresh(accounts, after, b.miner)
    {
      hide Between, AllFresh, Fresh, Refreshed;
      ghost var before := accounts;
      NoneStale(before, after);
      for i := 0 to |b.txs|
        invariant Between(before, accounts, after) && AllFresh(accounts, after, b.txs[..i])
      {
        RefreshedStep(before, accounts, after, b.txs[..i], b.txs[i].from);
        RefreshAccount(b.txs[i].from, after);
        RefreshedStep(before, accounts, after, b.txs[..i], b.txs[i].to);
        RefreshedKeeps(accounts, after, b.txs[i].to, b.txs[i].from);
        RefreshAccount(b.txs[i].to, after);
        assert b.txs[..i + 1] == b.txs[..i] + [b.txs[i]];
        FreshAppend(accounts, after, b.txs[..i], b.txs[i]);
      }
      assert b.txs[..|b.txs|] == b.txs;
      RefreshedStep(before, accounts, after, b.txs, b.miner);
      RefreshAccount(b.miner, after);
    }

    /** What the node does to its cache when a block extends the active tip. */
    method AdvanceTo(b: Block, after: Ledger, ghost before: Ledger)
      requires Keyed(after.accounts)
      requires Mirrors(before) && b.height == |before.blocks| && after.blocks == before.blocks + [b]
      requires b.height > 0 && TransitionStep(before.accounts, b, after.accounts)
      modifies this
      ensures Mirrors(after)
    {
      InsertBlock(b);
      assert IndexesBlocks(after.blocks);
      RefreshTouched(b, after.accounts);
      RefreshIsComplete(before.accounts, accounts, after.accounts, b);
    }
  }

  /** Refreshing the touched accounts is enough, because a block above genesis changes no others. */
  lemma RefreshIsComplete(before: Accounts, now: Accounts, after: Accounts, b: Block)
    requires b.height > 0 && TransitionStep(before, b, after) && Between(before, now, after)
    requires AllFresh(now, after, b.txs) && Fresh(now, after, b.miner)
    ensures now == after
  {
    forall a | a in after ensures Fresh(now, after, a) {
      if a in Touched(b) {
        assert a == b.miner || exists t :: t in b.txs && (t.from == a || t.to == a);
      } else {
        assert a in before && after[a] == before[a];
      }
    }
    assert forall a :: a in after ==> Fresh(now, after, a);
    assert now.Keys == after.Keys;
  }

  ghost predicate AllFresh(now: Accounts, after: Accounts, txs: seq<Tx>)
  {
    forall t :: t in txs ==> Fresh(now, after, t.from) && Fresh(now, after, t.to)
  }

  /** Entry `a` of a partly refreshed account table is up to date. */
  ghost predicate Fresh(now: Accounts, after: Accounts, a: Address)
  {
    a in after ==> a in now && now[a] == after[a]
  }

  /** Every entry of a partly refreshed table is the old one or the new one. */
  ghost predicate Between(before: Accounts, now: Accounts, after: Accounts)
  {
    && before.Keys <= now.Keys <= after.Keys
    && (forall a :: a in now ==> now[a] == after[a] || (a in before && now[a] == before[a]))
  }

  function Refreshed(now: Accounts, after: Accounts, a: Address): (r: Accounts)
  {
    if a in after then now[a := after[a]] else now
  }

  lemma NoneStale(before: Accounts, after: Accounts)
    requires before.Keys <= after.Keys
    ensures Between(before, before, after) && AllFresh(before, after, [])
  {
  }

  /** Refreshing an account keeps the refreshed ones. */
  lemma RefreshedStep(before: Accounts, now: Accounts, after: Accounts, txs: seq<Tx>, a: Address)
    requires Between(before, now, after) && AllFresh(now, after, txs)
    ensures Between(before, Refreshed(now, after, a), after) && AllFresh(Refreshed(now, after, a), after, txs)
    ensures Fresh(Refreshed(now, after, a), after, a)
  {
    hide Fresh;
    forall x | Fresh(now, after, x) || x == a ensures Fresh(Refreshed(now, after, a), after, x) {
      RefreshedKeeps(now, after, a, x);
    }
  }

  lemma RefreshedKeeps(now: Accounts, after: Accounts, a: Address, x: Address)
    ensures Fresh(now, after, x) || x == a ==> Fresh(Refreshed(now, after, a), after, x)
  {
  }

  lemma FreshAppend(now: Accounts, after: Accounts, txs: seq<Tx>, t: Tx)
    requires AllFresh(now, after, txs) && Fresh(now, after, t.from) && Fresh(now, after, t.to)
    ensures AllFresh(now, after, txs + [t])
  {
    hide Fresh;
  }
}
