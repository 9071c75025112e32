/** The wallet's choice of the next nonce, against what the mempool expects. */
module Wallet {
  import opened Types
  import opened Ordered
  import opened MempoolRules

  /** The sender has a pending transaction with this nonce. */
  ghost predicate Used(txs: seq<Tx>, from: Address, nonce: u64)
  {
    exists t :: t in txs && t.from == from && t.nonce == nonce
  }

  predicate AtMost(a: u64, b: u64) { a <= b }

  /** Nonces of one sender among the listed pending transactions. */
  method NoncesOf(txs: seq<Tx>, from: Address) returns (r: seq<u64>)
    ensures forall n :: n in r <==> Used(txs, from, n)
  {
    r := [];
    for i := 0 to |txs|
      invariant forall n :: n in r <==> Used(txs[..i], from, n)
    {
      assert txs[..i + 1] == txs[..i] + [txs[i]];
      if txs[i].from == from { r := r + [txs[i].nonce]; }
    }
    assert txs[..|txs|] == txs;
  }

  /** Drops repeats from a sorted list. */
  method Dedup(s: seq<u64>) returns (r: seq<u64>)
    requires SortedBy(s, AtMost)
    ensures forall n :: n in r <==> n in s
    ensures forall i, j :: 0 <= i < j < |r| ==> r[i] < r[j]
  {
    r := [];
    for i := 0 to |s|
      invariant forall n :: n in r <==> n in s[..i]
      invariant forall j, k :: 0 <= j < k < |r| ==> r[j] < r[k]
      invariant |r| > 0 ==> r[|r| - 1] in s[..i]
    {
      assert s[..i + 1] == s[..i] + [s[i]];
      assert forall n :: n in s[..i] ==> AtMost(n, s[i]) by {
        forall n | n in s[..i] ensures AtMost(n, s[i]) {
          var j :| 0 <= j < i && s[j] == n;
        }
      }
      if |r| == 0 || r[|r| - 1] != s[i] { r := r + [s[i]]; }
    }
    assert s[..|s|] == s;
  }

  /** Every nonce from `start` up to but not including `next` is pending. */
  ghost predicate AllPending(pending: seq<u64>, start: u64, next: int)
  {
    forall n: u64 :: start <= n < next ==> n in pending
  }

  /** The first gap at or above `start` in a strictly rising list; at the 64-bit ceiling the
      search stays there. */
  method FirstGap(nonces: seq<u64>, start: u64) returns (next: u64)
    requires forall i, j :: 0 <= i < j < |nonces| ==> nonces[i] < nonces[j]
    ensures start <= next && AllPending(nonces, start, next)
    ensures next in nonces <==> AllPending(nonces, start, U64_MAX + 1)
    ensures next in nonces ==> next == U64_MAX
  {
    next := start;
    for i := 0 to |nonces|
      invariant start <= next && AllPending(nonces, start, next)
      invariant forall k :: 0 <= k < i ==> nonces[k] < next || nonces[k] == next == U64_MAX
    {
      if nonces[i] == next {
        next := SatAdd64(next, 1);
      } else if nonces[i] > next {
        assert forall k :: i <= k < |nonces| ==> nonces[k] > next;
        assert next !in nonces;
        return;
      }
    }
  }

  /** `resolve_wallet_nonce`: the least nonce, from the account nonce up, that is not pending. */
  method ResolveWalletNonce(accountNonce: Option<u64>, txs: seq<Tx>, from: Address) returns (next: u64)
    ensures var start := if accountNonce.Some? then accountNonce.value else 0;
            && start <= next
            && (forall n :: start <= n < next ==> Used(txs, from, n))
            && (next < U64_MAX ==> !Used(txs, from, next))
            && (Used(txs, from, next) <==> forall n: u64 :: start <= n ==> Used(txs, from, n))
  {
    var start := if accountNonce.Some? then accountNonce.value else 0;
    var nonces := NoncesOf(txs, from);
    var sorted := SortBy(nonces, AtMost);
    SortBySorted(nonces, AtMost);
    forall n ensures n in sorted <==> n in nonces { SortMembers(nonces, AtMost, n); }
    var rising := Dedup(sorted);
    next := FirstGap(rising, start);
    assert forall n :: n in rising <==> Used(txs, from, n);
  }

  /** Whenever the sender's pending transactions form a chain the mempool accepts, the wallet
      picks exactly the nonce the mempool expects next, and the pick replaces nothing. */
  method NonceForPool(pool: Pool, from: Address, account: Account, spendable: nat, txs: seq<Tx>) returns (next: u64)
    requires forall t :: t in txs <==> exists h :: h in pool && pool[h].tx == t
    ensures var walked := Walk(SortBy(PendingFrom(pool, from, None), NonceOrder), account.nonce, spendable);
            walked.Ok? ==> next == walked.value.0
    ensures next < U64_MAX ==> Slot(pool, from, next) == None
  {
    hide Walk;
    next := ResolveWalletNonce(Some(account.nonce), txs, from);
    var pending := SortBy(PendingFrom(pool, from, None), NonceOrder);
    forall t ensures t in pending <==> t in txs && t.from == from { PendingMembers(pool, from, None, t); }
    if Walk(pending, account.nonce, spendable).Ok? {
      WalkMeaning(pending, account.nonce, spendable);
      hide *;
      ChainGap(txs, from, pending, account.nonce, next);
    }
  }

  /** The first gap above a contiguous chain is where the chain ends. */
  lemma ChainGap(txs: seq<Tx>, from: Address, chain: seq<Tx>, start: u64, next: u64)
    requires forall i :: 0 <= i < |chain| ==> chain[i].nonce == SatAdd64(start, i)
    requires forall t :: t in chain <==> t in txs && t.from == from
    requires start <= next && forall n: u64 :: start <= n < next ==> Used(txs, from, n)
    requires next < U64_MAX ==> !Used(txs, from, next)
    ensures next == SatAdd64(start, |chain|)
  {
    var end := SatAdd64(start, |chain|);
    assert end < U64_MAX ==> !Used(txs, from, end) by {
      if t :| t in txs && t.from == from && t.nonce == end {
        var i :| 0 <= i < |chain| && chain[i] == t;
        assert t.nonce == SatAdd64(start, i);
      }
    }
    forall n: u64 | start <= n < end ensures Used(txs, from, n) { assert chain[n - start] in chain; }
  }
}
