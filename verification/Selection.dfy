/** Choosing mempool transactions for a block: the best head of any sender's queue, repeatedly. */
module Selection {
  import opened Types
  import opened Protocols
  import opened Ordered
  import opened MempoolRules

  type Queues = map<Address, seq<Tx>>

  /** Queue order of one sender: nonce, then digest. */
  function QueueOrder(p: Protocol): (Tx, Tx) -> bool
  {
    (a: Tx, b: Tx) => a.nonce < b.nonce || (a.nonce == b.nonce && p.txHash(a) <= p.txHash(b))
  }

  function FromSender(txs: seq<Tx>, from: Address): (r: seq<Tx>)
  {
    if txs == [] then []
    else FromSender(txs[..|txs| - 1], from) + if txs[|txs| - 1].from == from then [txs[|txs| - 1]] else []
  }

  lemma {:induction false} FromSenderMembers(txs: seq<Tx>, from: Address, t: Tx)
    ensures t in FromSender(txs, from) <==> t in txs && t.from == from
  {
    if txs != [] {
      var n := |txs| - 1;
      FromSenderMembers(txs[..n], from, t);
      assert txs == txs[..n] + [txs[n]];
    }
  }

  /** `q` groups `txs` by sender. */
  ghost predicate GroupsOf(txs: seq<Tx>, q: Queues)
  {
    forall from {:trigger FromSender(txs, from)} {:trigger from in q} ::
      if from in q then q[from] == FromSender(txs, from) && q[from] != [] else FromSender(txs, from) == []
  }

  lemma GroupStep(txs: seq<Tx>, q: Queues, t: Tx)
    requires GroupsOf(txs, q)
    ensures GroupsOf(txs + [t], q[t.from := (if t.from in q then q[t.from] else []) + [t]])
  {
    assert (txs + [t])[..|txs|] == txs;
    forall from ensures FromSender(txs + [t], from) == FromSender(txs, from) + if t.from == from then [t] else [] {
    }
  }

  /** `q` groups `txs` by sender, each group sorted. */
  ghost predicate QueuesOf(p: Protocol, txs: seq<Tx>, q: Queues)
  {
    forall from {:trigger FromSender(txs, from)} {:trigger from in q} ::
      if from in q then
        q[from] == SortBy(FromSender(txs, from), QueueOrder(p)) && q[from] != [] else FromSender(txs, from) == []
  }

  /** `t` is taken before `u`: higher fee, then lower nonce, then lower digest. */
  predicate Beats(p: Protocol, t: Tx, u: Tx)
  {
    || t.fee > u.fee
    || (t.fee == u.fee && t.nonce < u.nonce)
    || (t.fee == u.fee && t.nonce == u.nonce && p.txHash(t) < p.txHash(u))
  }

  function Count(picked: seq<Tx>, from: Address): (r: nat)
  {
    if picked == [] then 0
    else Count(picked[..|picked| - 1], from) + if picked[|picked| - 1].from == from then 1 else 0
  }

  lemma CountStep(picked: seq<Tx>, t: Tx, from: Address)
    ensures Count(picked + [t], from) == Count(picked, from) + if t.from == from then 1 else 0
  {
    assert (picked + [t])[..|picked|] == picked;
  }

  /** The next transaction of a sender after `picked`, if any. */
  function Head(q: Queues, picked: seq<Tx>, from: Address): (r: Option<Tx>)
  {
    if from in q && Count(picked, from) < |q[from]| then Some(q[from][Count(picked, from)]) else None
  }

  /** `t` is the head of its sender's queue and beats the head of every other queue. */
  ghost predicate Greedy(p: Protocol, q: Queues, picked: seq<Tx>, t: Tx)
  {
    && Head(q, picked, t.from) == Some(t)
    && (forall from :: from != t.from && Head(q, picked, from).Some? ==> Beats(p, t, Head(q, picked, from).value))
  }

  /** Every pick was greedy when it was made. */
  ghost predicate GreedySequence(p: Protocol, q: Queues, picked: seq<Tx>)
  {
    picked != [] ==>
      var n := |picked| - 1;
      GreedySequence(p, q, picked[..n]) && Greedy(p, q, picked[..n], picked[n])
  }

  lemma {:induction false} GreedyAt(p: Protocol, q: Queues, picked: seq<Tx>, n: nat)
    requires GreedySequence(p, q, picked) && n < |picked|
    ensures GreedySequence(p, q, picked[..n]) && Greedy(p, q, picked[..n], picked[n])
  {
    var m := |picked| - 1;
    if n < m {
      GreedyAt(p, q, picked[..m], n);
      assert picked[..m][..n] == picked[..n];
    }
  }

  /** At every turn no other sender's head pays a higher fee than the pick; one with the same fee has
      no lower nonce, and one with the same fee and nonce a larger digest. */
  ghost predicate FeesDecide(p: Protocol, q: Queues, picked: seq<Tx>)
  {
    forall n, from :: 0 <= n < |picked| && from != picked[n].from && Head(q, picked[..n], from).Some? ==>
      var t, u := picked[n], Head(q, picked[..n], from).value;
      && u.fee <= t.fee
      && (u.fee == t.fee ==> t.nonce <= u.nonce)
      && (u.fee == t.fee && u.nonce == t.nonce ==> p.txHash(t) < p.txHash(u))
  }

  lemma GreedyByFee(p: Protocol, q: Queues, picked: seq<Tx>)
    requires GreedySequence(p, q, picked)
    ensures FeesDecide(p, q, picked)
  {
    hide GreedySequence, Head;
    forall n, from | 0 <= n < |picked| && from != picked[n].from && Head(q, picked[..n], from).Some?
      ensures Beats(p, picked[n], Head(q, picked[..n], from).value)
    {
      GreedyAt(p, q, picked, n);
    }
  }

  /** The greedy rule leaves no choice: a selection is determined by its length. */
  lemma {:induction false} GreedyUnique(p: Protocol, q: Queues, a: seq<Tx>, b: seq<Tx>)
    requires GreedySequence(p, q, a) && GreedySequence(p, q, b) && |a| == |b|
    ensures a == b
  {
    if a != [] {
      var n := |a| - 1;
      GreedyUnique(p, q, a[..n], b[..n]);
      assert a == a[..n] + [a[n]] && b == b[..n] + [b[n]];
    }
  }

  /** The picks of one sender, in order. */
  ghost function PicksOf(picked: seq<Tx>, from: Address): (r: seq<Tx>)
    ensures |r| == Count(picked, from)
  {
    if picked == [] then []
    else PicksOf(picked[..|picked| - 1],
                 from) + if picked[|picked| - 1].from == from then [picked[|picked| - 1]] else []
  }

  /** Each sender contributes a prefix of its queue, in queue order. */
  lemma {:induction false} PicksArePrefix(p: Protocol, q: Queues, picked: seq<Tx>, from: Address)
    requires GreedySequence(p, q, picked)
    ensures from in q ==> PicksOf(picked, from) <= q[from]
    ensures from !in q ==> PicksOf(picked, from) == []
  {
    if picked != [] {
      PicksArePrefix(p, q, picked[..|picked| - 1], from);
    }
  }

  // ----- Sizes -----

  /** Number of queued transactions. */
  ghost function Size(q: Queues): (r: nat)
  {
    if q == map[] then 0 else
      var a :| a in q;
      |q[a]| + Size(q - {a})
  }

  lemma {:induction false} SizeRemove(q: Queues, a: Address)
    requires a in q
    ensures Size(q) == |q[a]| + Size(q - {a})
    decreases |q|
  {
    var k :| k in q && Size(q) == |q[k]| + Size(q - {k});
    if k != a {
      SizeRemove(q - {k}, a);
      SizeRemove(q - {a}, k);
      assert q - {k} - {a} == q - {a} - {k};
    }
  }

  lemma SizeSet(q: Queues, a: Address, s: seq<Tx>)
    ensures Size(q[a := s]) == |s| + Size(q - {a})
  {
    SizeRemove(q[a := s], a);
    assert q[a := s] - {a} == q - {a};
  }

  lemma {:induction false} SizeSameLengths(q: Queues, r: Queues)
    requires q.Keys == r.Keys && forall a :: a in q ==> |q[a]| == |r[a]|
    ensures Size(q) == Size(r)
    decreases |q|
  {
    if q != map[] {
      var a :| a in q;
      SizeRemove(q, a);
      SizeRemove(r, a);
      SizeSameLengths(q - {a}, r - {a});
    }
  }

  // ----- The selection loop -----

  method GroupBySender(txs: seq<Tx>) returns (q: Queues)
    ensures GroupsOf(txs, q) && Size(q) == |txs|
  {
    q := map[];
    for i := 0 to |txs|
      invariant GroupsOf(txs[..i], q) && Size(q) == i
    {
      var t := txs[i];
      var group := if t.from in q then q[t.from] else [];
      GroupStep(txs[..i], q, t);
      assert txs[..i + 1] == txs[..i] + [t];
      SizeSet(q, t.from, group + [t]);
      if t.from in q { SizeRemove(q, t.from); } else { assert q - {t.from} == q; }
      q := q[t.from := group + [t]];
    }
    assert txs[..|txs|] == txs;
  }

  method BestHead(p: Protocol, live: Queues) returns (best: Address)
    requires live != map[]
    requires forall a :: a in live ==> live[a] != [] && live[a][0].from == a
    requires HashLaw(p)
    ensures best in live
    ensures forall a :: a in live && a != best ==> Beats(p, live[best][0], live[a][0])
  {
    var todo := live.Keys;
    best :| best in todo;
    todo := todo - {best};
    while todo != {}
      invariant best in live && todo <= live.Keys && best !in todo
      invariant forall a :: a in live && a != best && a !in todo ==> Beats(p, live[best][0], live[a][0])
    {
      var a :| a in todo;
      todo := todo - {a};
      if Beats(p, live[a][0], live[best][0]) { best := a; }
    }
  }

  /** `live` is what remains of `q` after `picked`. */
  ghost predicate Remaining(q: Queues, picked: seq<Tx>, live: Queues)
  {
    && (forall a :: a in live <==> a in q && Count(picked, a) < |q[a]|)
    && (forall a :: a in live ==> live[a] == q[a][Count(picked, a)..])
  }

  lemma RemainingStep(q: Queues, picked: seq<Tx>, live: Queues, a: Address)
    requires Remaining(q, picked, live) && a in live && live[a][0].from == a
    ensures Remaining(q, picked + [live[a][0]], if |live[a]| == 1 then live - {a} else live[a := live[a][1..]])
  {
    forall b ensures Count(picked + [live[a][0]], b) == Count(picked, b) + if b == a then 1 else 0 {
      CountStep(picked, live[a][0], b);
    }
  }

  lemma GreedyStep(p: Protocol, q: Queues, picked: seq<Tx>, live: Queues, a: Address)
    requires Remaining(q, picked, live) && a in live && live[a][0].from == a && GreedySequence(p, q, picked)
    requires forall b :: b in live && b != a ==> Beats(p, live[a][0], live[b][0])
    ensures GreedySequence(p, q, picked + [live[a][0]])
  {
    var t := live[a][0];
    assert (picked + [t])[..|picked|] == picked;
    forall b | b != a && Head(q, picked, b).Some? ensures Beats(p, t, Head(q, picked, b).value) {
      assert b in live && live[b][0] == Head(q, picked, b).value;
    }
  }

  /** Picks greedily until the limit or the queues are exhausted. */
  method PickGreedily(p: Protocol, q: Queues, limit: nat) returns (picked: seq<Tx>)
    requires HashLaw(p)
    requires forall a :: a in q ==> q[a] != [] && forall i :: 0 <= i < |q[a]| ==> q[a][i].from == a
    ensures GreedySequence(p, q, picked)
    ensures |picked| == if limit < Size(q) then limit else Size(q)
  {
    picked := [];
    var live := q;
    while |picked| < limit && live != map[]
      invariant |picked| <= limit
      invariant Remaining(q, picked, live)
      invariant GreedySequence(p, q, picked)
      invariant |picked| + Size(live) == Size(q)
      decreases limit - |picked|
    {
      var a := BestHead(p, live);
      var t := live[a][0];
      RemainingStep(q, picked, live, a);
      GreedyStep(p, q, picked, live, a);
      SizeRemove(live, a);
      SizeSet(live, a, live[a][1..]);
      picked := picked + [t];
      live := if |live[a]| == 1 then live - {a} else live[a := live[a][1..]];
    }
  }

  method SortGroups(p: Protocol, txs: seq<Tx>, groups: Queues) returns (q: Queues)
    requires GroupsOf(txs, groups)
    ensures QueuesOf(p, txs, q) && Size(q) == Size(groups)
  {
    q := map from | from in groups :: SortBy(groups[from], QueueOrder(p));
    SizeSameLengths(groups, q);
  }

  /** The pool's transactions in digest order. */
  function PoolTxs(pool: Pool): (r: seq<Tx>)
    ensures |r| == |pool|
  {
    var m := map h | h in pool :: pool[h].tx;
    assert m.Keys == pool.Keys;
    ValuesInOrder(m)
  }

  lemma QueueMembers(p: Protocol, txs: seq<Tx>, from: Address, t: Tx)
    ensures t in SortBy(FromSender(txs, from), QueueOrder(p)) <==> t in txs && t.from == from
  {
    SortMembers(FromSender(txs, from), QueueOrder(p), t);
    FromSenderMembers(txs, from, t);
  }

  lemma QueueSenders(p: Protocol, txs: seq<Tx>, q: Queues)
    requires QueuesOf(p, txs, q)
    ensures forall a :: a in q ==> q[a] != [] && forall i :: 0 <= i < |q[a]| ==> q[a][i].from == a && q[a][i] in txs
  {
    forall a, i | a in q && 0 <= i < |q[a]| ensures q[a][i].from == a && q[a][i] in txs {
      QueueMembers(p, txs, a, q[a][i]);
    }
  }

  /** The queues are determined by the transactions. */
  lemma QueuesUnique(p: Protocol, txs: seq<Tx>, q: Queues, r: Queues)
    requires QueuesOf(p, txs, q) && QueuesOf(p, txs, r)
    ensures q == r
  {
    hide SortBy, FromSender, QueueOrder;
    assert forall a :: a in q <==> a in r;
    assert forall a :: a in q ==> q[a] == r[a];
  }

  /** `select_for_block`. */
  method SelectForBlock(p: Protocol, pool: Pool, limit: nat) returns (picked: seq<Tx>, ghost q: Queues)
    requires HashLaw(p)
    ensures QueuesOf(p, PoolTxs(pool), q)
    ensures GreedySequence(p, q, picked) && FeesDecide(p, q, picked)
    ensures |picked| == if limit < |pool| then limit else |pool|
  {
    var txs := PoolTxs(pool);
    var groups := GroupBySender(txs);
    var sorted := SortGroups(p, txs, groups);
    QueueSenders(p, txs, sorted);
    q := sorted;
    picked := PickGreedily(p, sorted, limit);
    GreedyByFee(p, q, picked);
  }
}
