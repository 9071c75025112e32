/** What a block selection guarantees: distinct pool members, sender order, executability. */
module SelectionProperties {
  import opened Types
  import opened Protocols
  import opened Ordered
  import opened MempoolRules
  import opened Selection

  lemma PoolTxsDistinct(p: Protocol, pool: Pool)
    requires WellKeyed(p, pool)
    ensures Distinct(PoolTxs(pool))
    ensures forall t :: t in PoolTxs(pool) <==> exists h :: h in pool && pool[h].tx == t
  {
    var m := map h | h in pool :: pool[h].tx;
    var keys, txs := Ascending(m.Keys), PoolTxs(pool);
    forall i, j | 0 <= i < j < |txs| ensures txs[i] != txs[j] {
      assert keys[i] < keys[j];
    }
    forall t ensures t in txs <==> exists h :: h in pool && pool[h].tx == t {
      ValuesMembers(m, t);
      if h :| h in pool && pool[h].tx == t { assert m[h] == t; }
    }
  }

  lemma {:induction false} FromSenderDistinct(txs: seq<Tx>, from: Address)
    requires Distinct(txs)
    ensures Distinct(FromSender(txs, from))
  {
    if txs != [] {
      var n := |txs| - 1;
      FromSenderDistinct(txs[..n], from);
      FromSenderMembers(txs[..n], from, txs[n]);
    }
  }

  lemma QueuesDistinct(p: Protocol, txs: seq<Tx>, q: Queues, from: Address)
    requires QueuesOf(p, txs, q) && Distinct(txs) && from in q
    ensures Distinct(q[from])
  {
    var same := (a: Tx, b: Tx) => a == b;
    FromSenderDistinct(txs, from);
    var group := FromSender(txs, from);
    assert Apart(group, same);
    SortByApart(group, QueueOrder(p), same);
    forall i, j | 0 <= i < j < |q[from]| ensures q[from][i] != q[from][j] {
      assert !same(q[from][i], q[from][j]);
    }
  }

  lemma {:induction false} PickedIsPickOfSender(picked: seq<Tx>, t: Tx)
    requires t in picked
    ensures t in PicksOf(picked, t.from)
  {
    var n := |picked| - 1;
    assert picked == picked[..n] + [picked[n]];
    if t in picked[..n] { PickedIsPickOfSender(picked[..n], t); }
  }

  /** The next pick of a sender differs from its earlier picks. */
  lemma FreshPick(p: Protocol, q: Queues, picked: seq<Tx>, t: Tx)
    requires GreedySequence(p, q, picked) && Greedy(p, q, picked, t) && Distinct(q[t.from])
    ensures t !in picked
  {
    PicksArePrefix(p, q, picked, t.from);
    var picks := PicksOf(picked, t.from);
    assert forall i :: 0 <= i < |picks| ==> picks[i] == q[t.from][i];
    if t in picked { PickedIsPickOfSender(picked, t); assert false; }
  }

  lemma {:induction false} GreedyDistinct(p: Protocol, q: Queues, picked: seq<Tx>)
    requires GreedySequence(p, q, picked) && forall a :: a in q ==> Distinct(q[a])
    ensures Distinct(picked)
    ensures forall t :: t in picked ==> t.from in q && t in q[t.from]
  {
    if picked != [] {
      var n := |picked| - 1;
      GreedyDistinct(p, q, picked[..n]);
      FreshPick(p, q, picked[..n], picked[n]);
      assert picked == picked[..n] + [picked[n]];
    }
  }

  /** A selection never repeats a transaction and only takes pool members. */
  lemma SelectionDistinct(p: Protocol, pool: Pool, q: Queues, picked: seq<Tx>)
    requires WellKeyed(p, pool) && QueuesOf(p, PoolTxs(pool), q) && GreedySequence(p, q, picked)
    ensures Distinct(picked)
    ensures forall t :: t in picked ==> exists h :: h in pool && pool[h].tx == t
  {
    hide Distinct, SortBy, QueueOrder, GreedySequence, PoolTxs, FromSender;
    PoolTxsDistinct(p, pool);
    forall a | a in q ensures Distinct(q[a]) { QueuesDistinct(p, PoolTxs(pool), q, a); }
    GreedyDistinct(p, q, picked);
    forall t | t in picked ensures exists h :: h in pool && pool[h].tx == t {
      QueueMembers(p, PoolTxs(pool), t.from, t);
    }
  }

  // ----- Executability -----

  /** Executing `txs` in order meets every sender's next nonce and never overdraws it. */
  ghost predicate Executes(p: Protocol, l: Ledger, txs: seq<Tx>)
  {
    txs != [] ==>
      var n := |txs| - 1;
      var t := txs[n];
      && Executes(p, l, txs[..n])
      && t.from in l.accounts
      && t.nonce == l.accounts[t.from].nonce + Count(txs[..n], t.from)
      && Spend(PicksOf(txs[..n], t.from)) + t.amount + t.fee <= p.available(l.accounts[t.from], TipHeight(l))
  }

  /** The sender's pending transactions form a funded chain that ends below the nonce ceiling. */
  ghost predicate Contiguous(p: Protocol, l: Ledger, pool: Pool, from: Address, chain: seq<Tx>)
  {
    && from in l.accounts
    && FundedChain(pool, l.accounts[from], from, p.available(l.accounts[from], TipHeight(l)), chain)
    && l.accounts[from].nonce + |chain| <= U64_MAX + 1
  }

  lemma {:induction false} SpendPrefix(s: seq<Tx>, t: seq<Tx>)
    requires s <= t
    ensures Spend(s) <= Spend(t)
  {
    if s != [] { SpendPrefix(s[1..], t[1..]); }
  }

  /** The queue of a sender with rising nonces is that chain. */
  lemma QueueIsChain(p: Protocol, txs: seq<Tx>, q: Queues, from: Address, chain: seq<Tx>)
    requires QueuesOf(p, txs, q) && Distinct(txs) && from in q
    requires forall t :: t in chain <==> t in txs && t.from == from
    requires forall i, j :: 0 <= i < j < |chain| ==> chain[i].nonce < chain[j].nonce
    ensures q[from] == chain
  {
    QueuesDistinct(p, txs, q, from);
    forall t ensures t in q[from] <==> t in chain { QueueMembers(p, txs, from, t); }
    QueueRises(p, txs, q, from, chain);
    RisingUnique(q[from], chain, LowerNonce);
  }

  predicate LowerNonce(a: Tx, b: Tx) { a.nonce < b.nonce }

  lemma QueueRises(p: Protocol, txs: seq<Tx>, q: Queues, from: Address, chain: seq<Tx>)
    requires QueuesOf(p, txs, q) && from in q && Distinct(q[from])
    requires forall t :: t in q[from] ==> t in chain
    requires forall i, j :: 0 <= i < j < |chain| ==> chain[i].nonce < chain[j].nonce
    ensures Rising(q[from], LowerNonce)
  {
    hide Distinct, SortBy, Rising;
    QueueSorted(p, txs, q, from);
    SortedRises(p, q[from], chain);
  }

  lemma QueueSorted(p: Protocol, txs: seq<Tx>, q: Queues, from: Address)
    requires QueuesOf(p, txs, q) && from in q
    ensures SortedBy(q[from], QueueOrder(p))
  {
    hide SortBy, SortedBy, FromSender, TotalOrder;
    QueueOrderTotal(p);
    SortBySorted(FromSender(txs, from), QueueOrder(p));
  }

  lemma QueueOrderTotal(p: Protocol)
    ensures TotalOrder(QueueOrder(p))
  {
  }

  /** A sorted list without repeats, taken from a chain of rising nonces, rises. */
  lemma SortedRises(p: Protocol, s: seq<Tx>, chain: seq<Tx>)
    requires SortedBy(s, QueueOrder(p)) && Distinct(s) && forall t :: t in s ==> t in chain
    requires forall i, j :: 0 <= i < j < |chain| ==> chain[i].nonce < chain[j].nonce
    ensures Rising(s, LowerNonce)
  {
    forall i, j | 0 <= i < j < |s| ensures LowerNonce(s[i], s[j]) {
      assert QueueOrder(p)(s[i], s[j]) && s[i] != s[j];
      SameNonceSameTx(chain, s[i], s[j]);
    }
  }

  lemma SameNonceSameTx(chain: seq<Tx>, t: Tx, u: Tx)
    requires forall i, j :: 0 <= i < j < |chain| ==> chain[i].nonce < chain[j].nonce
    ensures t in chain && u in chain && t.nonce == u.nonce ==> t == u
  {
  }

  /** A queue with consecutive nonces from the account nonce and enough funds. */
  ghost predicate Payable(p: Protocol, l: Ledger, from: Address, queue: seq<Tx>)
  {
    && from in l.accounts
    && (forall i :: 0 <= i < |queue| ==> queue[i].nonce == l.accounts[from].nonce + i)
    && Spend(queue) <= p.available(l.accounts[from], TipHeight(l))
  }

  lemma {:induction false} GreedyExecutes(p: Protocol, l: Ledger, q: Queues, picked: seq<Tx>)
    requires GreedySequence(p, q, picked) && forall from :: from in q ==> Payable(p, l, from, q[from])
    ensures Executes(p, l, picked)
  {
    if picked != [] {
      var n := |picked| - 1;
      var t := picked[n];
      GreedyExecutes(p, l, q, picked[..n]);
      PicksArePrefix(p, q, picked[..n], t.from);
      var picks := PicksOf(picked[..n], t.from);
      SpendAppend(picks, t);
      SpendPrefix(picks + [t], q[t.from]);
    }
  }

  lemma ContiguousNonces(p: Protocol, l: Ledger, pool: Pool, from: Address, chain: seq<Tx>)
    requires Contiguous(p, l, pool, from, chain)
    ensures Payable(p, l, from, chain)
    ensures forall i, j :: 0 <= i < j < |chain| ==> chain[i].nonce < chain[j].nonce
  {
  }

  lemma ContiguousQueueIsPayable(p: Protocol, l: Ledger, pool: Pool, txs: seq<Tx>, q: Queues, from: Address,
                                 chain: seq<Tx>)
    requires QueuesOf(p, txs, q) && from in q && Distinct(txs)
    requires forall t :: t in txs <==> exists h :: h in pool && pool[h].tx == t
    requires Contiguous(p, l, pool, from, chain)
    ensures Payable(p, l, from, q[from])
  {
    assert forall t :: t in chain <==> t in txs && t.from == from;
    ContiguousNonces(p, l, pool, from, chain);
    QueueIsChain(p, txs, q, from, chain);
  }

  /** If every sender's pending transactions form a funded contiguous chain, a greedy selection
      can be executed in the order it was made. */
  lemma SelectionExecutes(p: Protocol, l: Ledger, pool: Pool, q: Queues, chains: map<Address, seq<Tx>>, picked: seq<Tx>)
    requires WellKeyed(p, pool) && QueuesOf(p, PoolTxs(pool), q) && GreedySequence(p, q, picked)
    requires forall from :: from in q ==> from in chains && Contiguous(p, l, pool, from, chains[from])
    ensures Executes(p, l, picked)
  {
    PoolTxsDistinct(p, pool);
    forall from | from in q ensures Payable(p, l, from, q[from]) {
      ContiguousQueueIsPayable(p, l, pool, PoolTxs(pool), q, from, chains[from]);
    }
    GreedyExecutes(p, l, q, picked);
  }
}
