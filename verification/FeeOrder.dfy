/** What a block selection earns: fees decide, and where they can the selection is the best one. */
module FeeOrder {
  import opened Types
  import opened Protocols
  import opened Ordered
  import opened MempoolRules
  import opened Selection
  import opened SelectionProperties
  import opened Mining

  ghost predicate Pending(pool: Pool, t: Tx)
  {
    exists h :: h in pool && pool[h].tx == t
  }

  /** Where a transaction that is not picked yet stands: at or behind its sender's head. */
  lemma NotYetPicked(p: Protocol, pool: Pool, q: Queues, picked: seq<Tx>, u: Tx) returns (k: nat)
    requires WellKeyed(p, pool) && QueuesOf(p, PoolTxs(pool), q) && GreedySequence(p, q, picked)
    requires Pending(pool, u) && u !in picked
    ensures u.from in q && Count(picked, u.from) <= k < |q[u.from]| && q[u.from][k] == u
  {
    hide GreedySequence, PicksOf;
    PoolTxsDistinct(p, pool);
    QueueMembers(p, PoolTxs(pool), u.from, u);
    assert u in q[u.from] by { FromSenderMembers(PoolTxs(pool), u.from, u); }
    k :| 0 <= k < |q[u.from]| && q[u.from][k] == u;
    PicksArePrefix(p, q, picked, u.from);
    var picks := PicksOf(picked, u.from);
    if k < Count(picked, u.from) { assert picks[k] == u; PickIsPicked(picked, u.from, u); }
  }

  lemma {:induction false} PickIsPicked(picked: seq<Tx>, from: Address, t: Tx)
    requires t in PicksOf(picked, from)
    ensures t in picked && t.from == from
  {
    var n := |picked| - 1;
    assert picked == picked[..n] + [picked[n]];
    if t in PicksOf(picked[..n], from) { PickIsPicked(picked[..n], from, t); }
  }

  lemma HeadIsNew(p: Protocol, q: Queues, picked: seq<Tx>, from: Address)
    requires GreedySequence(p, q, picked) && from in q && Count(picked, from) < |q[from]| && Distinct(q[from])
    requires q[from][Count(picked, from)].from == from
    ensures q[from][Count(picked, from)] !in picked
  {
    hide GreedySequence, PicksOf;
    var v := q[from][Count(picked, from)];
    PicksArePrefix(p, q, picked, from);
    var picks := PicksOf(picked, from);
    assert forall i :: 0 <= i < |picks| ==> picks[i] == q[from][i];
    if v in picked { PickedIsPickOfSender(picked, v); }
  }

  /** A transaction that is passed over for one of another sender is held back by one of its own
      sender, with no higher nonce and not picked before, that pays no more than the pick. */
  lemma HeldBack(p: Protocol, pool: Pool, q: Queues, picked: seq<Tx>, n: nat, u: Tx) returns (v: Tx)
    requires WellKeyed(p, pool) && QueuesOf(p, PoolTxs(pool), q) && GreedySequence(p, q, picked) && n < |picked|
    requires Pending(pool, u) && u !in picked[..n] && u.from != picked[n].from
    ensures Pending(pool, v) && v.from == u.from && v !in picked[..n] && v.nonce <= u.nonce
    ensures v.fee <= picked[n].fee
  {
    hide GreedySequence, QueueOrder, SortBy, QueuesOf, PoolTxs, Distinct, Count, FeesDecide;
    GreedyAt(p, q, picked, n);
    var k := NotYetPicked(p, pool, q, picked[..n], u);
    var c := Count(picked[..n], u.from);
    v := q[u.from][c];
    assert Head(q, picked[..n], u.from) == Some(v);
    PoolTxsDistinct(p, pool);
    QueuesDistinct(p, PoolTxs(pool), q, u.from);
    QueueSenders(p, PoolTxs(pool), q);
    HeadIsNew(p, q, picked[..n], u.from);
    QueueNonces(p, PoolTxs(pool), q, u.from, c, k);
    HeadPaysLess(p, q, picked, n, u.from);
  }

  lemma HeadPaysLess(p: Protocol, q: Queues, picked: seq<Tx>, n: nat, from: Address)
    requires GreedySequence(p, q, picked) && n < |picked| && from != picked[n].from
    requires Head(q, picked[..n], from).Some?
    ensures Head(q, picked[..n], from).value.fee <= picked[n].fee
  {
    hide GreedySequence, Head;
    GreedyByFee(p, q, picked);
  }

  /** A sender's queue is ordered by nonce and then by digest. */
  lemma QueueNonces(p: Protocol, txs: seq<Tx>, q: Queues, from: Address, i: nat, j: nat)
    requires QueuesOf(p, txs, q) && from in q && i <= j < |q[from]|
    ensures q[from][i].nonce <= q[from][j].nonce
    ensures q[from][i].nonce == q[from][j].nonce ==> p.txHash(q[from][i]) <= p.txHash(q[from][j])
  {
    hide QueuesOf, SortBy, FromSender;
    QueueSorted(p, txs, q, from);
    if i < j { assert QueueOrder(p)(q[from][i], q[from][j]); }
  }

  /** No sender offers more for a later nonce than for an earlier one. */
  ghost predicate FeesFall(pool: Pool)
  {
    forall t, u :: Pending(pool, t) && Pending(pool, u) && t.from == u.from && t.nonce <= u.nonce ==> u.fee <= t.fee
  }

  /** Then no transaction that is left out pays more than one that is picked. */
  lemma TopFees(p: Protocol, pool: Pool, q: Queues, picked: seq<Tx>, t: Tx, u: Tx)
    requires WellKeyed(p, pool) && QueuesOf(p, PoolTxs(pool), q) && GreedySequence(p, q, picked) && FeesFall(pool)
    requires t in picked && Pending(pool, u) && u !in picked
    ensures u.fee <= t.fee
  {
    hide GreedySequence, QueuesOf, PoolTxs, Distinct;
    var n :| 0 <= n < |picked| && picked[n] == t;
    SelectionDistinct(p, pool, q, picked);
    if u.from == t.from {
      SenderOrder(p, pool, q, picked, t, u);
    } else {
      var v := HeldBack(p, pool, q, picked, n, u);
    }
  }

  lemma SenderOrder(p: Protocol, pool: Pool, q: Queues, picked: seq<Tx>, t: Tx, u: Tx)
    requires WellKeyed(p, pool) && QueuesOf(p, PoolTxs(pool), q) && GreedySequence(p, q, picked)
    requires t in picked && Pending(pool, u) && u !in picked && u.from == t.from
    ensures t.nonce <= u.nonce
  {
    hide GreedySequence, PicksOf, QueuesOf, PoolTxs;
    var k := NotYetPicked(p, pool, q, picked, u);
    PicksArePrefix(p, q, picked, t.from);
    PickedIsPickOfSender(picked, t);
    var picks := PicksOf(picked, t.from);
    var i :| 0 <= i < |picks| && picks[i] == t;
    QueueNonces(p, PoolTxs(pool), q, t.from, i, k);
  }

  // ----- The total -----

  /** Entries that rank at least as high as all others outweigh any other choice of no more entries. */
  lemma {:induction false} TopTotal(pool: Pool, best: Pool, other: Pool, f: Tx -> nat)
    requires Within(best, pool) && Within(other, pool) && |other| <= |best|
    requires forall a, b :: a in best && b in pool && b !in best ==> f(pool[b].tx) <= f(pool[a].tx)
    ensures Total(other, f) <= Total(best, f)
    decreases |other|
  {
    if other != map[] {
      var b :| b in other;
      TotalRemove(other, f, b);
      var a := b;
      if b !in best { a := Unshared(best, other, b); }
      TotalRemove(best, f, a);
      OneLess(best, a);
      OneLess(other, b);
      TopTotal(pool - {a, b}, best - {a}, other - {b}, f);
    }
  }

  ghost predicate Within(part: Pool, pool: Pool)
  {
    forall h :: h in part ==> h in pool && part[h] == pool[h]
  }

  lemma Unshared(best: Pool, other: Pool, b: Hash) returns (a: Hash)
    requires |other| <= |best| && b in other && b !in best
    ensures a in best && a !in other
  {
    var rest := other.Keys - {b};
    assert |rest| == |other| - 1;
    if best.Keys <= rest { SubsetSize(best.Keys, rest); }
    assert exists a :: a in best && a !in rest;
    a :| a in best && a !in rest;
  }

  /** The pool entries of a selection. */
  ghost function Chosen(p: Protocol, pool: Pool, picked: seq<Tx>): (r: Pool)
  {
    map h | h in pool && pool[h].tx in picked :: pool[h]
  }

  ghost function Fee(): Tx -> nat
  {
    (t: Tx) => t.fee as nat
  }

  /** The fee sum of a selection is the fee total of its pool entries. */
  lemma {:induction false} ChosenFees(p: Protocol, pool: Pool, picked: seq<Tx>)
    requires WellKeyed(p, pool) && Distinct(picked) && forall t :: t in picked ==> Pending(pool, t)
    ensures Total(Chosen(p, pool, picked), Fee()) == TotalFees(picked) && |Chosen(p, pool, picked)| == |picked|
  {
    if picked == [] {
      assert Chosen(p, pool, picked) == map[];
    } else {
      var n := |picked| - 1;
      ChosenFees(p, pool, picked[..n]);
      hide Total;
      ChosenStep(p, pool, picked);
    }
  }

  /** The last pick adds its own entry. */
  lemma ChosenStep(p: Protocol, pool: Pool, picked: seq<Tx>)
    requires WellKeyed(p, pool) && picked != [] && Distinct(picked) && Pending(pool, picked[|picked| - 1])
    ensures var best, rest, t := Chosen(p, pool, picked), Chosen(p, pool, picked[..|picked| - 1]), picked[|picked| - 1];
            |best| == |rest| + 1 && Total(best, Fee()) == t.fee + Total(rest, Fee())
  {
    hide Total;
    var n := |picked| - 1;
    var t, rest := picked[n], Chosen(p, pool, picked[..n]);
    var h :| h in pool && pool[h].tx == t;
    assert picked == picked[..n] + [t];
    assert h !in rest && Chosen(p, pool, picked) == rest[h := pool[h]];
    TotalInsert(rest, Fee(), h, pool[h]);
  }

  /** Where no sender offers more for a later nonce, no other choice of as many pending transactions
      pays more in fees than the greedy one. */
  lemma GreedyIsBest(p: Protocol, pool: Pool, q: Queues, picked: seq<Tx>, other: seq<Tx>)
    requires WellKeyed(p, pool) && QueuesOf(p, PoolTxs(pool), q) && GreedySequence(p, q, picked) && FeesFall(pool)
    requires Distinct(other) && |other| <= |picked| && forall t :: t in other ==> Pending(pool, t)
    ensures TotalFees(other) <= TotalFees(picked)
  {
    hide GreedySequence, QueuesOf, FeesFall, TotalFees;
    SelectionDistinct(p, pool, q, picked);
    ChosenFees(p, pool, picked);
    ChosenFees(p, pool, other);
    var best := Chosen(p, pool, picked);
    forall a, b | a in best && b in pool && b !in best ensures Fee()(pool[b].tx) <= Fee()(pool[a].tx) {
      assert Pending(pool, pool[b].tx);
      TopFees(p, pool, q, picked, pool[a].tx, pool[b].tx);
    }
    TopTotal(pool, best, Chosen(p, pool, other), Fee());
  }
}
