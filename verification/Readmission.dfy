/** What a reorg does to the pool: the transactions of abandoned blocks are offered again. */
module Readmission {
  import opened Types
  import opened Protocols
  import opened Ordered
  import opened ForkTree
  import opened Replays
  import opened TxIndex
  import opened MempoolRules
  import opened Mempools
  import opened Consistency

  /** The pool after one transaction was offered, accepted or not. */
  ghost function AfterOffer(p: Protocol, c: Config, l: Ledger, pool: Pool, t: Tx, now: u64): (r: Pool)
  {
    var pruned := Pruned(c, pool, now);
    match Admission(p, c, pruned, Total(pruned, p.txSize), l, t, now)
    case Err(_) => pruned
    case Ok(replaced) => Without(pruned, replaced)[p.txHash(t) := Entry(t, now)]
  }

  ghost function AfterOffers(p: Protocol, c: Config, l: Ledger, pool: Pool, txs: seq<Tx>, now: u64): (r: Pool)
  {
    if txs == [] then pool
    else AfterOffer(p, c, l, AfterOffers(p, c, l, pool, txs[..|txs| - 1], now), txs[|txs| - 1], now)
  }

  /** The transactions of the blocks that are not on the winning branch, in chain order. */
  ghost function AbandonedTxs(p: Protocol, blocks: seq<Block>, winning: set<Hash>): (r: seq<Tx>)
  {
    if blocks == [] then []
    else
      var b := blocks[|blocks| - 1];
      AbandonedTxs(p, blocks[..|blocks| - 1], winning) + if p.hash(b) in winning then [] else b.txs
  }

  /** A reorg offers exactly the abandoned transactions, in chain order. */
  ghost predicate Readmitted(p: Protocol, c: Config, l: Ledger, abandoned: seq<Block>, winning: set<Hash>, before: Pool,
                             after: Pool, now: u64)
  {
    after == AfterOffers(p, c, l, before, AbandonedTxs(p, abandoned, winning), now)
  }

  method OfferOne(pool: Mempool, l: Ledger, t: Tx, now: u64)
    requires pool.Valid()
    modifies pool
    ensures pool.Valid() && pool.transactions == AfterOffer(pool.p, pool.config, l, old(pool.transactions), t, now)
  {
    hide Admission, Total, Pruned, Without, WellKeyed;
    var _ := pool.InsertValidatedAt(l, t, now);
  }

  /** Offers the transactions of one abandoned block. */
  method OfferBlock(pool: Mempool, l: Ledger, b: Block, now: u64, ghost before: Pool, ghost done: seq<Tx>)
    requires pool.Valid() && pool.transactions == AfterOffers(pool.p, pool.config, l, before, done, now)
    modifies pool
    ensures pool.Valid() && pool.transactions == AfterOffers(pool.p, pool.config, l, before, done + b.txs, now)
  {
    hide AfterOffer, AfterOffers, Mempool.Valid;
    assert done + b.txs[..0] == done;
    for j := 0 to |b.txs|
      invariant pool.Valid() && pool.transactions == AfterOffers(pool.p, pool.config, l, before, done + b.txs[..j], now)
    {
      ghost var more := done + b.txs[..j + 1];
      assert more[..|more| - 1] == done + b.txs[..j];
      OffersStep(pool.p, pool.config, l, before, more, now);
      OfferOne(pool, l, b.txs[j], now);
    }
    assert b.txs[..|b.txs|] == b.txs;
  }

  method Readmit(pool: Mempool, l: Ledger, abandoned: seq<Block>, winning: set<Hash>, now: u64)
    requires pool.Valid()
    modifies pool
    ensures pool.Valid()
    ensures Readmitted(pool.p, pool.config, l, abandoned, winning, old(pool.transactions), pool.transactions, now)
  {
    hide AfterOffer, AfterOffers, AbandonedTxs, Mempool.Valid;
    ghost var before := pool.transactions;
    AbandonedStep(pool.p, abandoned[..0], winning);
    NoOffers(pool.p, pool.config, l, before, [], now);
    for i := 0 to |abandoned|
      invariant pool.Valid()
      invariant pool.transactions == AfterOffers(pool.p, pool.config, l, before,
                                                 AbandonedTxs(pool.p, abandoned[..i], winning), now)
    {
      ghost var done := AbandonedTxs(pool.p, abandoned[..i], winning);
      assert abandoned[..i + 1][..i] == abandoned[..i];
      AbandonedStep(pool.p, abandoned[..i + 1], winning);
      assert done + [] == done;
      if pool.p.hash(abandoned[i]) !in winning {
        OfferBlock(pool, l, abandoned[i], now, before, done);
      }
    }
    assert abandoned[..|abandoned|] == abandoned;
  }

  ghost predicate Unexecuted(l: Ledger, t: Tx)
  {
    t.from in l.accounts && l.accounts[t.from].nonce <= t.nonce
  }

  /** A pool entry that came back: from an abandoned block, and not executed on the new ledger. */
  ghost predicate ReadmittedTx(p: Protocol, l: Ledger, abandoned: seq<Block>, winning: set<Hash>, t: Tx)
  {
    && Unexecuted(l, t)
    && exists b :: b in abandoned && p.hash(b) !in winning && t in b.txs
  }

  lemma {:induction false} OffersEntries(p: Protocol, c: Config, l: Ledger, before: Pool, txs: seq<Tx>, now: u64)
    requires WellKeyed(p, before)
    ensures var after := AfterOffers(p, c, l, before, txs, now);
            && WellKeyed(p, after)
            && (forall h :: h in after ==>
                  (h in before && after[h] == before[h]) || (after[h].tx in txs && Unexecuted(l, after[h].tx)))
  {
    if txs != [] {
      var n := |txs| - 1;
      OffersEntries(p, c, l, before, txs[..n], now);
      var pruned := Pruned(c, AfterOffers(p, c, l, before, txs[..n], now), now);
      var bytes := Total(pruned, p.txSize);
      hide Admission, Total, AfterOffers;
      if Admission(p, c, pruned, bytes, l, txs[n], now).Ok? { AdmittedNonce(p, c, pruned, bytes, l, txs[n], now); }
      OffersStep(p, c, l, before, txs, now);
    }
  }

  lemma OffersStep(p: Protocol, c: Config, l: Ledger, before: Pool, txs: seq<Tx>, now: u64)
    requires txs != []
    ensures AfterOffers(p, c, l, before, txs, now)
            == AfterOffer(p, c, l, AfterOffers(p, c, l, before, txs[..|txs| - 1], now), txs[|txs| - 1], now)
  {
  }

  /** The abandoned transactions of a longer chain are those of its lower part followed by those of
      its upper part; a block on the winning branch gives none, any other all of its own. */
  lemma {:induction false} AbandonedInOrder(p: Protocol, lower: seq<Block>, upper: seq<Block>, winning: set<Hash>)
    ensures AbandonedTxs(p, lower + upper, winning)
            == AbandonedTxs(p, lower, winning) + AbandonedTxs(p, upper, winning)
    ensures |upper| == 1 ==> AbandonedTxs(p, upper, winning) == if p.hash(upper[0]) in winning then [] else upper[0].txs
  {
    hide AbandonedTxs;
    AbandonedStep(p, lower + upper, winning);
    AbandonedStep(p, upper, winning);
    if upper == [] {
      assert lower + upper == lower;
    } else {
      var n := |upper| - 1;
      AbandonedInOrder(p, lower, upper[..n], winning);
      assert (lower + upper)[..|lower| + n] == lower + upper[..n];
      Regroup(AbandonedTxs(p, lower, winning), AbandonedTxs(p, upper[..n], winning), Offered(p, upper[n], winning));
    }
  }

  /** What one old block offers again. */
  ghost function Offered(p: Protocol, b: Block, winning: set<Hash>): (r: seq<Tx>)
  {
    if p.hash(b) in winning then [] else b.txs
  }

  lemma AbandonedStep(p: Protocol, blocks: seq<Block>, winning: set<Hash>)
    ensures blocks == [] ==> AbandonedTxs(p, blocks, winning) == []
    ensures blocks != [] ==>
              AbandonedTxs(p, blocks, winning)
              == AbandonedTxs(p, blocks[..|blocks| - 1], winning) + Offered(p, blocks[|blocks| - 1], winning)
    ensures |blocks| == 1 ==> AbandonedTxs(p, blocks, winning) == Offered(p, blocks[0], winning)
  {
  }

  lemma {:induction false} AbandonedMembers(p: Protocol, blocks: seq<Block>, winning: set<Hash>, t: Tx)
    ensures t in AbandonedTxs(p, blocks, winning) <==> exists b :: b in blocks && p.hash(b) !in winning && t in b.txs
  {
    hide AbandonedTxs;
    AbandonedStep(p, blocks, winning);
    if blocks != [] {
      var n := |blocks| - 1;
      AbandonedMembers(p, blocks[..n], winning, t);
      assert blocks == blocks[..n] + [blocks[n]];
      assert forall b :: b in blocks <==> b in blocks[..n] || b == blocks[n];
    }
  }

  /** After a reorg every pool entry was there before, or is an abandoned transaction that is not
      confirmed anywhere on the winning branch. */
  lemma ReorgKeepsPoolUnconfirmed(p: Protocol, c: Config, ga: Accounts, l: Ledger, fc: ForkChoice,
                                  abandoned: seq<Block>, winning: set<Hash>, before: Pool, after: Pool, now: u64,
                                  h: Hash)
    requires Lawful(p) && Consistent(p, ga, l, fc) && WellKeyed(p, before)
    requires Readmitted(p, c, l, abandoned, winning, before, after, now) && h in after
    ensures (h in before && after[h] == before[h]) ||
            (ReadmittedTx(p, l, abandoned, winning, after[h].tx)
             && forall i :: 0 <= i < |l.blocks| ==> !Confirms(p, l.blocks[i], p.txHash(after[h].tx)))
  {
    hide AfterOffers, AbandonedTxs, Confirms, Lawful, Consistent;
    OffersEntries(p, c, l, before, AbandonedTxs(p, abandoned, winning), now);
    AbandonedMembers(p, abandoned, winning, after[h].tx);
    if ReadmittedTx(p, l, abandoned, winning, after[h].tx) {
      ReadmittedIsUnconfirmed(p, ga, l, fc, abandoned, winning, after[h].tx);
    }
  }

  lemma ReadmittedIsUnconfirmed(p: Protocol, ga: Accounts, l: Ledger, fc: ForkChoice, abandoned: seq<Block>,
                                winning: set<Hash>, t: Tx)
    requires Lawful(p) && Consistent(p, ga, l, fc) && ReadmittedTx(p, l, abandoned, winning, t)
    ensures forall i :: 0 <= i < |l.blocks| ==> !Confirms(p, l.blocks[i], p.txHash(t))
  {
    hide AllReplay, Replay, RootLaw, ConsensusLaw, GenesisLaw;
    ConsistentTip(p, ga, l, fc);
    BranchElements(p, fc.nodes, fc.best, 0);
    ReplayConfirms(p, ga, l.blocks);
  }

  // ----- What stays confirmed in the pool -----

  ghost predicate ConfirmedTx(l: Ledger, t: Tx)
  {
    exists i :: 0 <= i < |l.blocks| && t in l.blocks[i].txs
  }

  /** The unexpired entries of a pool that the ledger has confirmed. */
  ghost predicate Overlap(c: Config, l: Ledger, pool: Pool, now: u64, h: Hash, e: Entry)
  {
    h in pool && pool[h] == e && !Stale(c, e, now) && ConfirmedTx(l, e.tx)
  }

  /** One offer keeps exactly the unexpired confirmed entries among the confirmed ones. */
  lemma OfferKeepsOverlap(p: Protocol, c: Config, l: Ledger, pool: Pool, t: Tx, now: u64, h: Hash, e: Entry)
    requires WellKeyed(p, pool) && ConfirmedBelow(l)
    ensures var after := AfterOffer(p, c, l, pool, t, now);
            (h in after && after[h] == e && ConfirmedTx(l, e.tx)) <==> Overlap(c, l, pool, now, h, e)
  {
    hide Admission, Total, Stale;
    var pruned := Pruned(c, pool, now);
    var bytes := Total(pruned, p.txSize);
    var decision := Admission(p, c, pruned, bytes, l, t, now);
    if decision.Ok? {
      AdmittedNonce(p, c, pruned, bytes, l, t, now);
      AdmittedIsNew(p, c, pruned, bytes, l, t, now);
    }
  }

  lemma AdmittedIsNew(p: Protocol, c: Config, pool: Pool, bytes: nat, l: Ledger, t: Tx, now: u64)
    requires Admission(p, c, pool, bytes, l, t, now).Ok?
    ensures p.txHash(t) !in pool
    ensures var replaced := Admission(p, c, pool, bytes, l, t, now).value;
            replaced.Some? ==>
                replaced.value in pool && pool[replaced.value].tx.from == t.from
                  && pool[replaced.value].tx.nonce == t.nonce
  {
    AdmissionParts(p, c, pool, bytes, l, t, now);
  }

  /** After a reorg that offers at least one transaction, the pool entries confirmed on the winning
      branch are exactly the unexpired entries of the old pool that are confirmed there. */
  lemma {:induction false} OffersKeepOverlap(p: Protocol, c: Config, l: Ledger, before: Pool, txs: seq<Tx>, now: u64,
                                             h: Hash, e: Entry)
    requires WellKeyed(p, before) && ConfirmedBelow(l) && txs != []
    ensures var after := AfterOffers(p, c, l, before, txs, now);
            (h in after && after[h] == e && ConfirmedTx(l, e.tx)) <==> Overlap(c, l, before, now, h, e)
  {
    hide AfterOffers, AfterOffer, ConfirmedTx, Stale;
    var n := |txs| - 1;
    OffersStep(p, c, l, before, txs, now);
    OffersEntries(p, c, l, before, txs[..n], now);
    OfferKeepsOverlap(p, c, l, AfterOffers(p, c, l, before, txs[..n], now), txs[n], now, h, e);
    if n > 0 {
      OffersKeepOverlap(p, c, l, before, txs[..n], now, h, e);
    } else {
      NoOffers(p, c, l, before, txs[..0], now);
    }
  }

  lemma NoOffers(p: Protocol, c: Config, l: Ledger, before: Pool, txs: seq<Tx>, now: u64)
    requires txs == []
    ensures AfterOffers(p, c, l, before, txs, now) == before
  {
  }

  /** After a reorg the pool is disjoint from the winning branch if and only if no entry of the old
      pool is confirmed there, not counting expired entries when anything was offered. */
  lemma DisjointAfterReorg(p: Protocol, c: Config, ga: Accounts, l: Ledger, fc: ForkChoice, abandoned: seq<Block>,
                           winning: set<Hash>, before: Pool, after: Pool, now: u64)
    requires Lawful(p) && Consistent(p, ga, l, fc) && WellKeyed(p, before)
    requires Readmitted(p, c, l, abandoned, winning, before, after, now)
    ensures (forall h :: h in after ==> !ConfirmedTx(l, after[h].tx)) <==>
            forall h :: h in before && ConfirmedTx(l, before[h].tx) ==>
                AbandonedTxs(p, abandoned, winning) != [] && Stale(c, before[h], now)
  {
    hide AfterOffers, AbandonedTxs, ConfirmedTx, Stale, Lawful, Consistent;
    LedgerConfirmsBelow(p, ga, l, fc);
    var txs := AbandonedTxs(p, abandoned, winning);
    if txs == [] {
      NoOffers(p, c, l, before, txs, now);
    } else {
      forall h, e ensures (h in after && after[h] == e && ConfirmedTx(l, e.tx)) <==> Overlap(c, l, before, now, h, e) {
        OffersKeepOverlap(p, c, l, before, txs, now, h, e);
      }
      forall h | h in after && ConfirmedTx(l, after[h].tx) ensures Overlap(c, l, before, now, h, after[h]) {
      }
      forall h | h in before && ConfirmedTx(l, before[h].tx) && !Stale(c, before[h], now)
        ensures h in after && after[h] == before[h]
      {
        assert Overlap(c, l, before, now, h, before[h]);
      }
    }
  }

  lemma LedgerConfirmsBelow(p: Protocol, ga: Accounts, l: Ledger, fc: ForkChoice)
    requires Lawful(p) && Consistent(p, ga, l, fc)
    ensures ConfirmedBelow(l)
  {
    hide AllReplay, Replay, RootLaw, ConsensusLaw, GenesisLaw;
    ConsistentTip(p, ga, l, fc);
    BranchElements(p, fc.nodes, fc.best, 0);
    ReplayConfirms(p, ga, l.blocks);
  }
}
