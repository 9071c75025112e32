/** What expiry does to a sender's chain of pending transactions. */
module Pruning {
  import opened Types
  import opened Protocols
  import opened MempoolRules
  import opened Ordered

  /** The part of a chain that survives a prune. */
  ghost function Kept(p: Protocol, pool: Pool, chain: seq<Tx>): (r: seq<Tx>)
    ensures |r| <= |chain| && forall t :: t in r <==> t in chain && p.txHash(t) in pool
  {
    if chain == [] then []
    else
      var n := |chain| - 1;
      assert chain == chain[..n] + [chain[n]];
      Kept(p, pool, chain[..n]) + if p.txHash(chain[n]) in pool then [chain[n]] else []
  }

  /** Either everything is kept, or as much as lies below the first dropped transaction. */
  lemma {:induction false} KeptCount(p: Protocol, pool: Pool, chain: seq<Tx>) returns (s: nat)
    ensures s <= |Kept(p, pool, chain)| && s <= |chain|
    ensures s < |chain| ==> p.txHash(chain[s]) !in pool
    ensures s == |chain| ==> |Kept(p, pool, chain)| == |chain|
  {
    if chain == [] {
      s := 0;
    } else {
      var n := |chain| - 1;
      s := KeptCount(p, pool, chain[..n]);
      if s == n && p.txHash(chain[n]) in pool { s := |chain|; }
    }
  }

  lemma {:induction false} KeptCost(p: Protocol, pool: Pool, chain: seq<Tx>)
    ensures Spend(Kept(p, pool, chain)) <= Spend(chain)
  {
    if chain != [] {
      var n := |chain| - 1;
      KeptCost(p, pool, chain[..n]);
      assert chain == chain[..n] + [chain[n]];
      SpendAppend(chain[..n], chain[n]);
      var rest := Kept(p, pool, chain[..n]);
      if p.txHash(chain[n]) in pool { SpendAppend(rest, chain[n]); } else { assert rest + [] == rest; }
    }
  }

  lemma {:induction false} KeptDistinct(p: Protocol, pool: Pool, chain: seq<Tx>)
    requires Distinct(chain)
    ensures Distinct(Kept(p, pool, chain))
  {
    hide Kept;
    KeptStep(p, pool, chain);
    if chain != [] {
      var n := |chain| - 1;
      KeptDistinct(p, pool, chain[..n]);
      LastIsNew(chain);
      AppendDistinct(Kept(p, pool, chain[..n]), chain[n]);
    }
  }

  lemma LastIsNew(chain: seq<Tx>)
    requires Distinct(chain) && chain != []
    ensures chain[|chain| - 1] !in chain[..|chain| - 1]
  {
  }

  lemma AppendDistinct(s: seq<Tx>, t: Tx)
    requires Distinct(s)
    ensures t !in s ==> Distinct(s + [t])
    ensures s + [] == s
  {
  }

  ghost predicate Gone(p: Protocol, pool: Pool, chain: seq<Tx>, t: Tx)
  {
    t in chain && p.txHash(t) !in pool
  }

  ghost predicate Stays(p: Protocol, pool: Pool, chain: seq<Tx>, t: Tx)
  {
    t in chain && p.txHash(t) in pool
  }

  /** No dropped transaction of a chain has a lower nonce than a kept one. */
  ghost predicate NoGap(p: Protocol, pool: Pool, chain: seq<Tx>)
  {
    forall t, u :: Gone(p, pool, chain, t) && Stays(p, pool, chain, u) ==> u.nonce <= t.nonce
  }

  lemma NoGapBelow(p: Protocol, pool: Pool, chain: seq<Tx>)
    requires NoGap(p, pool, chain) && chain != []
    ensures NoGap(p, pool, chain[..|chain| - 1])
  {
    var below := chain[..|chain| - 1];
    forall t, u | Gone(p, pool, below, t) && Stays(p, pool, below, u) ensures u.nonce <= t.nonce {
      assert Gone(p, pool, chain, t) && Stays(p, pool, chain, u);
    }
  }

  /** At the 64-bit ceiling places no longer matter. */
  lemma LastNonce(start: u64, s: nat, k: nat, n: nat)
    requires s <= k <= n
    ensures SatAdd64(start, n) <= SatAdd64(start, s) ==> SatAdd64(start, k) == SatAdd64(start, n)
  {
  }

  lemma {:induction false} KeptNonces(p: Protocol, pool: Pool, chain: seq<Tx>, start: u64)
    requires NoGap(p, pool, chain) && forall i :: 0 <= i < |chain| ==> chain[i].nonce == SatAdd64(start, i)
    ensures var r := Kept(p, pool, chain); forall i :: 0 <= i < |r| ==> r[i].nonce == SatAdd64(start, i)
  {
    hide Kept, SatAdd64, NoGap;
    KeptStep(p, pool, chain);
    if chain != [] {
      var n := |chain| - 1;
      NoGapBelow(p, pool, chain);
      KeptNonces(p, pool, chain[..n], start);
      LastKept(p, pool, chain, start);
    }
  }

  /** The last transaction, if kept, has the nonce of the place it moves to. */
  lemma LastKept(p: Protocol, pool: Pool, chain: seq<Tx>, start: u64)
    requires NoGap(p, pool, chain) && chain != [] && forall i :: 0 <= i < |chain| ==>
               chain[i].nonce == SatAdd64(start, i)
    ensures var n := |chain| - 1;
            p.txHash(chain[n]) in pool ==> chain[n].nonce == SatAdd64(start, |Kept(p, pool, chain[..n])|)
  {
    hide Kept, SatAdd64;
    var n := |chain| - 1;
    var s := KeptCount(p, pool, chain[..n]);
    LastNonce(start, s, |Kept(p, pool, chain[..n])|, n);
    assert s < n && p.txHash(chain[n]) in pool ==> Gone(p, pool, chain, chain[s]) && Stays(p, pool, chain, chain[n]);
  }

  lemma KeptStep(p: Protocol, pool: Pool, chain: seq<Tx>)
    ensures chain == [] ==> Kept(p, pool, chain) == []
    ensures chain != [] ==>
              var n := |chain| - 1;
              Kept(p, pool, chain) == Kept(p, pool, chain[..n]) + if p.txHash(chain[n]) in pool then [chain[n]] else []
  {
  }

  /** No expired entry of a sender has a lower nonce than one that stays. */
  ghost predicate Gapless(c: Config, pool: Pool, now: u64, from: Address)
  {
    forall h, k :: Leaves(c, pool, now, from, h) && Remains(c, pool, now, from, k) ==>
        pool[k].tx.nonce <= pool[h].tx.nonce
  }

  ghost predicate Leaves(c: Config, pool: Pool, now: u64, from: Address, h: Hash)
  {
    h in pool && pool[h].tx.from == from && Stale(c, pool[h], now)
  }

  ghost predicate Remains(c: Config, pool: Pool, now: u64, from: Address, h: Hash)
  {
    h in pool && pool[h].tx.from == from && !Stale(c, pool[h], now)
  }

  /** A prune leaves a sender's funded chain a funded chain if and only if it drops no transaction
      with a lower nonce than one it keeps. */
  lemma PruneKeepsChain(p: Protocol, c: Config, pool: Pool, now: u64, account: Account, from: Address, funds: nat,
                        chain: seq<Tx>)
    requires HashLaw(p) && WellKeyed(p, pool) && FundedChain(pool, account, from, funds, chain)
    ensures (exists rest: seq<Tx> :: FundedChain(Pruned(c, pool, now), account, from, funds, rest)) <==>
            Gapless(c, pool, now, from)
  {
    var pruned := Pruned(c, pool, now);
    ChainEntries(p, c, pool, now, from, chain);
    if NoGap(p, pruned, chain) {
      var rest := Kept(p, pruned, chain);
      KeptFunded(p, pool, pruned, account, from, funds, chain);
      assert FundedChain(pruned, account, from, funds, rest);
    }
    forall rest: seq<Tx> | FundedChain(pruned, account, from, funds, rest) ensures NoGap(p, pruned, chain) {
      ChainHasNoGap(p, pool, pruned, account, from, funds, chain, rest);
    }
  }

  /** The condition on pool entries is the condition on the chain. */
  lemma ChainEntries(p: Protocol, c: Config, pool: Pool, now: u64, from: Address, chain: seq<Tx>)
    requires HashLaw(p) && WellKeyed(p, pool) && forall t :: t in chain <==> PendingIn(pool, from, t)
    ensures NoGap(p, Pruned(c, pool, now), chain) <==>
            Gapless(c, pool, now, from)
  {
    hide HashLaw, Stale;
    var pruned := Pruned(c, pool, now);
    forall h | h in pool && pool[h].tx.from == from ensures pool[h].tx in chain && p.txHash(pool[h].tx) == h {
      assert PendingIn(pool, from, pool[h].tx);
    }
    forall i | 0 <= i < |chain|
      ensures p.txHash(chain[i]) in pool && pool[p.txHash(chain[i])].tx == chain[i] && chain[i].from == from
    {
      assert chain[i] in chain;
      var h :| h in pool && pool[h].tx == chain[i];
    }
    if NoGap(p, pruned, chain) {
      forall h, k | Leaves(c, pool, now, from, h) && Remains(c, pool, now, from, k)
        ensures pool[k].tx.nonce <= pool[h].tx.nonce
      {
        assert Gone(p, pruned, chain, pool[h].tx) && Stays(p, pruned, chain, pool[k].tx);
      }
    }
    if Gapless(c, pool, now, from) {
      forall t, u | Gone(p, pruned, chain, t) && Stays(p, pruned, chain, u) ensures u.nonce <= t.nonce {
        assert Leaves(c, pool, now, from, p.txHash(t)) && Remains(c, pool, now, from, p.txHash(u));
      }
    }
  }

  lemma KeptFunded(p: Protocol, pool: Pool, pruned: Pool, account: Account, from: Address, funds: nat, chain: seq<Tx>)
    requires WellKeyed(p, pool) && FundedChain(pool, account, from, funds, chain) && NoGap(p, pruned, chain)
    requires forall h :: h in pruned ==> h in pool && pruned[h] == pool[h]
    ensures FundedChain(pruned, account, from, funds, Kept(p, pruned, chain))
  {
    KeptNonces(p, pruned, chain, account.nonce);
    KeptDistinct(p, pruned, chain);
    KeptCost(p, pruned, chain);
    forall t ensures t in Kept(p, pruned, chain) <==> PendingIn(pruned, from, t) {
      if t in chain && p.txHash(t) in pruned {
        var h :| h in pool && pool[h].tx == t;
        assert pruned[p.txHash(t)].tx == t;
      }
      if PendingIn(pruned, from, t) {
        var h :| h in pruned && pruned[h].tx == t;
        assert pool[h].tx == t;
      }
    }
  }

  lemma ChainHasNoGap(p: Protocol, pool: Pool, pruned: Pool, account: Account, from: Address, funds: nat,
                      chain: seq<Tx>, rest: seq<Tx>)
    requires WellKeyed(p, pool) && FundedChain(pool, account, from, funds, chain)
    requires FundedChain(pruned, account, from, funds, rest)
    requires forall h :: h in pruned ==> h in pool && pruned[h] == pool[h]
    ensures NoGap(p, pruned, chain)
  {
    forall t, u | Gone(p, pruned, chain, t) && Stays(p, pruned, chain, u) ensures u.nonce <= t.nonce {
      var i :| 0 <= i < |chain| && chain[i] == t;
      var j :| 0 <= j < |chain| && chain[j] == u;
      if chain[i].nonce < chain[j].nonce {
        KeptInRest(p, pool, pruned, account, from, funds, chain, rest, i, j);
      }
    }
  }

  /** If a kept transaction lies above nonce `i`, the chain that is left fills nonce `i` too. */
  lemma KeptInRest(p: Protocol, pool: Pool, pruned: Pool, account: Account, from: Address, funds: nat, chain: seq<Tx>,
                   rest: seq<Tx>, i: nat, j: nat)
    requires WellKeyed(p, pool) && FundedChain(pool, account, from, funds, chain)
    requires FundedChain(pruned, account, from, funds, rest)
    requires forall h :: h in pruned ==> h in pool && pruned[h] == pool[h]
    requires i < |chain| && j < |chain| && p.txHash(chain[j]) in pruned && chain[i].nonce < chain[j].nonce
    ensures p.txHash(chain[i]) in pruned
  {
    assert chain[j] in chain;
    var h :| h in pool && pool[h].tx == chain[j];
    assert pruned[h].tx == chain[j];
    assert chain[j] in rest;
    var k :| 0 <= k < |rest| && rest[k] == chain[j];
    assert i < k;
    assert rest[i] in rest;
    var g :| g in pruned && pruned[g].tx == rest[i];
    assert pool[g].tx == rest[i];
    assert rest[i] in chain;
    var m :| 0 <= m < |chain| && chain[m] == rest[i];
    assert m == i;
  }
}
