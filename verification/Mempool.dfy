/** The pool of pending transactions. */
module Mempools {
  import opened Types
  import opened Protocols
  import opened Ordered
  import opened MempoolRules

  class Mempool {
    const p: Protocol
    const config: Config
    var transactions: Pool
    var totalBytes: nat

    ghost function Bytes(): (r: nat)
      reads this
    {
      Total(transactions, p.txSize)
    }

    /** Holds after every operation of every run: entries sit under their own digest, the byte
        counter covers the pool, and neither limit is exceeded. */
    ghost predicate Valid()
      reads this
    {
      && config.maxBytes < USIZE_MAX
      && WellKeyed(p, transactions)
      && Bytes() <= totalBytes <= config.maxBytes
      && |transactions| <= config.maxTransactions
    }

    constructor (p: Protocol, config: Config)
      requires config.maxBytes < USIZE_MAX
      ensures this.p == p && this.config == config && Valid() && transactions == map[]
    {
      this.p, this.config := p, config;
      transactions, totalBytes := map[], 0;
    }

    /** Drops expired entries and recounts the bytes, repairing any drift. */
    method PruneExpired(now: u64) returns (dropped: nat)
      requires Valid()
      modifies this
      ensures Valid() && transactions == Pruned(config, old(transactions), now) && totalBytes == Bytes()
      ensures forall h :: h in transactions <==>
                && h in old(transactions)
                && var e := old(transactions)[h];
                   now <= e.insertedAt + if e.tx.fee >= config.marketFee then config.ttl else config.lowFeeTtl
      ensures forall h :: h in transactions ==> transactions[h] == old(transactions)[h]
      ensures dropped == |old(transactions)| - |transactions|
    {
      var before := |transactions|;
      var kept, bytes := KeepFresh(p, config, transactions, now);
      TotalSubset(kept, transactions, p.txSize);
      FewerEntries(kept, transactions);
      transactions, totalBytes := kept, bytes;
      dropped := before - |transactions|;
    }

    method ValidateAgainstLedgerExcluding(l: Ledger, t: Tx, excluded: Option<Hash>) returns (r: Option<MempoolError>)
      ensures r == LedgerVerdict(p, config, transactions, l, t, excluded)
    {
      if p.checkSigned(t).Some? { return Some(InvalidTransaction(p.checkSigned(t).value)); }
      if FeeVerdict(config, t).Some? { return FeeVerdict(config, t); }
      if t.from !in l.accounts { return Some(InvalidLedgerState(AccountNotFound)); }
      var account := l.accounts[t.from];
      var expected := account.nonce;
      var spendable: nat := p.available(account, TipHeight(l));
      var pending := SortBy(PendingFrom(transactions, t.from, excluded), NonceOrder);
      var walked := WalkPending(pending, expected, spendable);
      match walked {
        case Err(e) => return Some(InvalidLedgerState(e));
        case Ok((nonce, left)) =>
          var step := StepTx(t, nonce, left);
          if step.Err? { return Some(InvalidLedgerState(step.error)); }
      }
      return None;
    }

    method Remove(h: Hash) returns (r: Option<Tx>)
      requires Valid()
      modifies this
      ensures Valid() && transactions == old(transactions) - {h}
      ensures r == if h in old(transactions) then Some(old(transactions)[h].tx) else None
      ensures old(totalBytes == Bytes()) ==> totalBytes == Bytes()
    {
      if h !in transactions {
        assert transactions - {h} == transactions;
        return None;
      }
      TotalRemove(transactions, p.txSize, h);
      FewerEntries(transactions - {h}, transactions);
      r := Some(transactions[h].tx);
      totalBytes := SatSub(totalBytes, p.txSize(transactions[h].tx));
      transactions := transactions - {h};
    }

    method InsertUnchecked(t: Tx, now: u64, replaced: Option<Hash>) returns (r: Result<Hash, MempoolError>)
      requires Valid() && totalBytes == Bytes()
      requires replaced.Some? ==> replaced.value in transactions
      modifies this
      ensures Valid() && totalBytes == Bytes()
      ensures match old(CapacityVerdict(p, config, transactions, totalBytes, t, replaced))
              case Some(e) => r == Err(e) && transactions == old(transactions)
              case None =>
                r == Ok(p.txHash(t))
                && transactions == Without(old(transactions), replaced)[p.txHash(t) := Entry(t, now)]
    {
      var verdict := CapacityVerdict(p, config, transactions, totalBytes, t, replaced);
      if verdict.Some? { return Err(verdict.value); }
      var h := p.txHash(t);
      if replaced.Some? {
        TotalRemove(transactions, p.txSize, replaced.value);
        assert |transactions - {replaced.value}| + 1 == |transactions| by { OneLess(transactions, replaced.value); }
        var _ := Remove(replaced.value);
      }
      TotalInsert(transactions, p.txSize, h, Entry(t, now));
      transactions := transactions[h := Entry(t, now)];
      totalBytes := SatAddSize(totalBytes, p.txSize(t));
      return Ok(h);
    }

    /** Admits a transaction against the ledger and the pending transactions. */
    method InsertValidatedAt(l: Ledger, t: Tx, now: u64) returns (r: Result<Hash, MempoolError>)
      requires Valid()
      modifies this
      ensures Valid() && totalBytes == Bytes()
      ensures var pruned := Pruned(config, old(transactions), now);
              match Admission(p, config, pruned, Total(pruned, p.txSize), l, t, now)
              case Err(e) => r == Err(e) && transactions == pruned
              case Ok(replaced) =>
                r == Ok(p.txHash(t))
                && transactions == Without(pruned, replaced)[p.txHash(t) := Entry(t, now)]
    {
      var _ := PruneExpired(now);
      if TimestampVerdict(p, t, now).Some? { return Err(TimestampVerdict(p, t, now).value); }
      if p.checkSignedAt(t, now).Some? { return Err(InvalidTransaction(p.checkSignedAt(t, now).value)); }
      if FeeVerdict(config, t).Some? { return Err(FeeVerdict(config, t).value); }
      var replacement := Replacement(transactions, t);
      if replacement.Err? { return Err(replacement.error); }
      var verdict := ValidateAgainstLedgerExcluding(l, t, replacement.value);
      if verdict.Some? { return Err(verdict.value); }
      r := InsertUnchecked(t, now, replacement.value);
    }

    /** Drops the transactions of a confirmed block without touching the byte counter. */
    method RemoveConfirmed(b: Block)
      requires Valid()
      modifies this
      ensures Valid() && totalBytes == old(totalBytes)
      ensures transactions == old(transactions) - TxHashes(p, b.txs)
    {
      var rest := DropAll(p, transactions, b.txs);
      TotalSubset(rest, transactions, p.txSize);
      FewerEntries(rest, transactions);
      transactions := rest;
    }

    /** Pending incoming and outgoing amounts of an address, each capped at 32 bits. */
    method PendingBalance(address: Address) returns (incoming: nat, outgoing: nat)
      ensures incoming == Capped(Total(transactions, Incoming(address)))
      ensures outgoing == Capped(Total(transactions, Outgoing(address)))
      ensures incoming <= U32_MAX && outgoing <= U32_MAX
      ensures Total(transactions, Incoming(address)) <= U32_MAX ==> incoming == Total(transactions, Incoming(address))
      ensures Total(transactions, Outgoing(address)) <= U32_MAX ==> outgoing == Total(transactions, Outgoing(address))
    {
      incoming, outgoing := 0, 0;
      var todo := transactions.Keys;
      ghost var done: Pool := map[];
      while todo != {}
        invariant todo <= transactions.Keys
        invariant done == map h | h in transactions && h !in todo :: transactions[h]
        invariant incoming == Capped(Total(done, Incoming(address)))
        invariant outgoing == Capped(Total(done, Outgoing(address)))
      {
        var h :| h in todo;
        var t := transactions[h].tx;
        TotalInsert(done, Incoming(address), h, transactions[h]);
        TotalInsert(done, Outgoing(address), h, transactions[h]);
        if t.to == address { incoming := Capped(incoming + t.amount); }
        if t.from == address { outgoing := Capped(outgoing + Capped(t.amount + t.fee)); }
        todo := todo - {h};
        done := done[h := transactions[h]];
      }
      assert done == transactions;
    }
  }

  /** The retained entries and their size. */
  method KeepFresh(p: Protocol, c: Config, pool: Pool, now: u64) returns (kept: Pool, bytes: nat)
    requires Total(pool, p.txSize) <= USIZE_MAX
    ensures kept == Pruned(c, pool, now) && bytes == Total(kept, p.txSize)
  {
    kept, bytes := map[], 0;
    var todo := pool.Keys;
    while todo != {}
      invariant todo <= pool.Keys
      invariant kept == map h | h in pool && h !in todo && !Stale(c, pool[h], now) :: pool[h]
      invariant bytes == Total(kept, p.txSize)
    {
      var h :| h in todo;
      todo := todo - {h};
      if !Stale(c, pool[h], now) {
        TotalInsert(kept, p.txSize, h, pool[h]);
        kept := kept[h := pool[h]];
        TotalSubset(kept, pool, p.txSize);
        bytes := SatAddSize(bytes, p.txSize(pool[h].tx));
      }
    }
  }

  method DropAll(p: Protocol, pool: Pool, txs: seq<Tx>) returns (rest: Pool)
    ensures rest == pool - TxHashes(p, txs)
  {
    rest := pool;
    for i := 0 to |txs|
      invariant rest == pool - TxHashes(p, txs[..i])
    {
      rest := rest - {p.txHash(txs[i])};
      TxHashesStep(p, txs[..i], txs[i]);
      assert txs[..i + 1] == txs[..i] + [txs[i]];
    }
    assert txs[..|txs|] == txs;
  }

  function TxHashes(p: Protocol, txs: seq<Tx>): (r: set<Hash>)
  {
    set t | t in txs :: p.txHash(t)
  }

  lemma TxHashesStep(p: Protocol, txs: seq<Tx>, t: Tx)
    ensures TxHashes(p, txs + [t]) == TxHashes(p, txs) + {p.txHash(t)}
  {
    assert t in txs + [t];
    assert forall u :: u in txs ==> u in txs + [t];
  }

  function Capped(n: nat): (r: nat)
  {
    if n <= U32_MAX then n else U32_MAX
  }

  method WalkPending(pending: seq<Tx>, nonce: u64, spendable: nat) returns (r: Result<(u64, nat), LedgerError>)
    ensures r == Walk(pending, nonce, spendable)
  {
    var expected, left := nonce, spendable;
    for i := 0 to |pending|
      invariant Walk(pending[i..], expected, left) == Walk(pending, nonce, spendable)
    {
      assert pending[i..][1..] == pending[i + 1..];
      var step := StepTx(pending[i], expected, left);
      if step.Err? { return Err(step.error); }
      left, expected := step.value, SatAdd64(expected, 1);
    }
    return Ok((expected, left));
  }

  lemma FewerEntries(small: Pool, large: Pool)
    requires small.Keys <= large.Keys
    ensures |small| <= |large|
  {
    SubsetSize(small.Keys, large.Keys);
  }
}
