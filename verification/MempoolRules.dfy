/** Pure mempool policy: expiry, replacement, admission against ledger plus pending transactions. */
module MempoolRules {
  import opened Types
  import opened Protocols
  import opened Ordered

  const MINUTE: nat := 60
  const DAY: nat := 24 * 60 * MINUTE
  const MAX_RELAY_TRANSACTION_AGE_SECS: nat := DAY
  const MIN_RELAY_FEE_FLOOR: nat := 1
  const USIZE_MAX: nat := U64_MAX

  datatype Config = Config(maxTransactions: nat, maxBytes: nat, ttl: nat, lowFeeTtl: nat, minRelayFee: nat,
                           marketFee: nat)
  datatype Entry = Entry(tx: Tx, insertedAt: u64)
  type Pool = map<Hash, Entry>

  datatype MempoolError =
    | DuplicateTransaction
    | FeeTooLow
    | MempoolFull
    | ReplacementFeeTooLow
    | InvalidTransaction(tx: TransactionError)
    | InvalidLedgerState(ledger: LedgerError)

  ghost predicate WellKeyed(p: Protocol, pool: Pool)
  {
    forall h :: h in pool ==> p.txHash(pool[h].tx) == h
  }

  // ----- Sums over a pool -----

  /** Sum of `f` over the transactions of a pool. */
  ghost function Total(pool: Pool, f: Tx -> nat): (r: nat)
  {
    if pool == map[] then 0 else
      var h :| h in pool;
      f(pool[h].tx) + Total(pool - {h}, f)
  }

  lemma {:induction false} TotalRemove(pool: Pool, f: Tx -> nat, h: Hash)
    requires h in pool
    ensures Total(pool, f) == f(pool[h].tx) + Total(pool - {h}, f)
    decreases |pool|
  {
    var k :| k in pool && Total(pool, f) == f(pool[k].tx) + Total(pool - {k}, f);
    if k != h {
      TotalRemove(pool - {k}, f, h);
      TotalRemove(pool - {h}, f, k);
      assert pool - {k} - {h} == pool - {h} - {k};
    }
  }

  lemma TotalInsert(pool: Pool, f: Tx -> nat, h: Hash, e: Entry)
    requires h !in pool
    ensures Total(pool[h := e], f) == f(e.tx) + Total(pool, f)
  {
    TotalRemove(pool[h := e], f, h);
    assert pool[h := e] - {h} == pool;
  }

  lemma {:induction false} TotalSubset(small: Pool, large: Pool, f: Tx -> nat)
    requires small.Keys <= large.Keys && forall h :: h in small ==> small[h] == large[h]
    ensures Total(small, f) <= Total(large, f)
    decreases |large|
  {
    if large != map[] {
      var h :| h in large;
      TotalRemove(large, f, h);
      if h in small { TotalRemove(small, f, h); TotalSubset(small - {h}, large - {h}, f); }
      else { TotalSubset(small, large - {h}, f); }
    }
  }

  // ----- Policy -----

  predicate Stale(c: Config, e: Entry, now: u64)
  {
    SatSub(now, e.insertedAt) > if e.tx.fee < c.marketFee then c.lowFeeTtl else c.ttl
  }

  function Pruned(c: Config, pool: Pool, now: u64): (r: Pool)
  {
    map h | h in pool && !Stale(c, pool[h], now) :: pool[h]
  }

  /** An entry that pays the market fee survives for the full lifetime, a cheaper one only for the
      short one; what survives is unchanged. */
  lemma PrunedExactly(c: Config, pool: Pool, now: u64, h: Hash)
    ensures h in Pruned(c, pool, now) <==>
            && h in pool
            && (pool[h].tx.fee >= c.marketFee ==> now <= pool[h].insertedAt + c.ttl)
            && (pool[h].tx.fee < c.marketFee ==> now <= pool[h].insertedAt + c.lowFeeTtl)
    ensures h in Pruned(c, pool, now) ==> Pruned(c, pool, now)[h] == pool[h]
  {
  }

  /** Relay accepts timestamps from a day ago up to a little into the future. */
  function TimestampVerdict(p: Protocol, t: Tx, now: u64): (r: Option<MempoolError>)
    ensures r == Some(InvalidTransaction(FromFuture)) <==> t.timestamp > now + p.relayFutureSecs
    ensures r.None? <==> t.timestamp <= now + p.relayFutureSecs && now <= t.timestamp + 86400
    ensures r.Some? ==> r.value == InvalidTransaction(FromFuture) || r.value == InvalidTransaction(Expired)
  {
    if t.timestamp > SatAdd64(now, p.relayFutureSecs) then Some(InvalidTransaction(FromFuture))
    else if SatSub(now, t.timestamp) > MAX_RELAY_TRANSACTION_AGE_SECS then Some(InvalidTransaction(Expired))
    else None
  }

  /** The fee must reach the configured minimum and be positive. */
  function FeeVerdict(c: Config, t: Tx): (r: Option<MempoolError>)
    ensures r.None? <==> t.fee > 0 && t.fee >= c.minRelayFee
    ensures r.Some? ==> r.value == FeeTooLow
  {
    var floor := if c.minRelayFee < MIN_RELAY_FEE_FLOOR then MIN_RELAY_FEE_FLOOR else c.minRelayFee;
    if t.fee < floor then Some(FeeTooLow) else None
  }

  /** The pending transaction with this sender and nonce, the first in digest order. */
  function Slot(pool: Pool, from: Address, nonce: u64): (r: Option<Hash>)
    ensures r.Some? ==> r.value in pool && pool[r.value].tx.from == from && pool[r.value].tx.nonce == nonce
    ensures r.None? ==> forall h :: h in pool && pool[h].tx.from == from ==> pool[h].tx.nonce != nonce
  {
    var s := set h | h in pool && pool[h].tx.from == from && pool[h].tx.nonce == nonce;
    assert forall h :: h in s <==> h in pool && pool[h].tx.from == from && pool[h].tx.nonce == nonce;
    if s == {} then None else Some(MinOf(s))
  }

  function Replacement(pool: Pool, t: Tx): (r: Result<Option<Hash>, MempoolError>)
  {
    match Slot(pool, t.from, t.nonce)
    case None => Ok(None)
    case Some(h) => if t.fee <= pool[h].tx.fee then Err(ReplacementFeeTooLow) else Ok(Some(h))
  }

  // ----- Walking a sender's pending chain -----

  predicate NonceOrder(a: Tx, b: Tx) { a.nonce <= b.nonce }

  /** Walks pending transactions from a nonce and a balance; gives what is left of both. */
  function Walk(pending: seq<Tx>, nonce: u64, spendable: nat): (r: Result<(u64, nat), LedgerError>)
  {
    if pending == [] then Ok((nonce, spendable))
    else
      match StepTx(pending[0], nonce, spendable)
      case Err(e) => Err(e)
      case Ok(left) => Walk(pending[1..], SatAdd64(nonce, 1), left)
  }

  /** One step of the walk: the nonce must match and the balance must cover amount plus fee. */
  function StepTx(t: Tx, nonce: u64, spendable: nat): (r: Result<nat, LedgerError>)
    ensures r == Err(InvalidState(InvalidNonce)) <==> t.nonce != nonce
    ensures r == Err(InvalidState(InsufficientBalance)) <==>
            t.nonce == nonce && spendable < t.amount + t.fee <= U32_MAX
    ensures r.Ok? ==> r.value + t.amount + t.fee == spendable
  {
    if t.nonce != nonce then Err(InvalidState(InvalidNonce))
    else if t.amount + t.fee > U32_MAX then Err(InvalidState(BalanceOverflow))
    else if spendable < t.amount + t.fee then Err(InvalidState(InsufficientBalance))
    else Ok(spendable - (t.amount + t.fee))
  }

  ghost function Spend(txs: seq<Tx>): (r: nat)
  {
    if txs == [] then 0 else txs[0].amount + txs[0].fee + Spend(txs[1..])
  }

  /** A successful walk means consecutive nonces (up to the 64-bit ceiling) and enough funds. */
  lemma {:induction false} WalkMeaning(pending: seq<Tx>, nonce: u64, spendable: nat)
    requires Walk(pending, nonce, spendable).Ok?
    ensures forall i :: 0 <= i < |pending| ==> pending[i].nonce == SatAdd64(nonce, i)
    ensures Walk(pending, nonce, spendable).value.0 == SatAdd64(nonce, |pending|)
    ensures Spend(pending) + Walk(pending, nonce, spendable).value.1 == spendable
  {
    if pending != [] {
      WalkMeaning(pending[1..], SatAdd64(nonce, 1), StepTx(pending[0], nonce, spendable).value);
      forall i | 0 <= i < |pending| ensures pending[i].nonce == SatAdd64(nonce, i) {
        if i > 0 { assert pending[i] == pending[1..][i - 1]; }
      }
    }
  }

  lemma {:induction false} SpendAppend(txs: seq<Tx>, t: Tx)
    ensures Spend(txs + [t]) == Spend(txs) + t.amount + t.fee
  {
    if txs == [] {
      assert [] + [t] == [t];
    } else {
      SpendAppend(txs[1..], t);
      assert (txs + [t])[1..] == txs[1..] + [t];
    }
  }

  // ----- Admission -----

  function TipHeight(l: Ledger): (r: nat)
  {
    if |l.blocks| == 0 then 0 else l.blocks[|l.blocks| - 1].height
  }

  function PendingMap(pool: Pool, from: Address, excluded: Option<Hash>): (r: map<Hash, Tx>)
  {
    map h | h in pool && Some(h) != excluded && pool[h].tx.from == from :: pool[h].tx
  }

  /** Pending transactions of a sender in digest order, leaving out one entry. */
  function PendingFrom(pool: Pool, from: Address, excluded: Option<Hash>): (r: seq<Tx>)
  {
    ValuesInOrder(PendingMap(pool, from, excluded))
  }

  /** Does `t` continue the sender's pending chain, with one entry left out? */
  function LedgerVerdict(p: Protocol, c: Config, pool: Pool, l: Ledger, t: Tx,
                         excluded: Option<Hash>): (r: Option<MempoolError>)
  {
    if p.checkSigned(t).Some? then Some(InvalidTransaction(p.checkSigned(t).value))
    else if FeeVerdict(c, t).Some? then FeeVerdict(c, t)
    else if t.from !in l.accounts then Some(InvalidLedgerState(AccountNotFound))
    else
      var account := l.accounts[t.from];
      var pending := SortBy(PendingFrom(pool, t.from, excluded), NonceOrder);
      match Walk(pending, account.nonce, p.available(account, TipHeight(l)))
      case Err(e) => Some(InvalidLedgerState(e))
      case Ok((nonce, spendable)) =>
        match StepTx(t, nonce, spendable)
        case Err(e) => Some(InvalidLedgerState(e))
        case Ok(_) => None
  }

  function CapacityVerdict(p: Protocol, c: Config, pool: Pool, bytes: nat, t: Tx,
                           replaced: Option<Hash>): (r: Option<MempoolError>)
    requires replaced.Some? ==> replaced.value in pool
    ensures r == Some(DuplicateTransaction) <==> p.txHash(t) in pool
    ensures r.Some? ==> r.value == DuplicateTransaction || r.value == MempoolFull
    ensures var freed := if replaced.Some? then p.txSize(pool[replaced.value].tx) else 0;
            r.None? <==> && p.txHash(t) !in pool && (replaced.None? ==> |pool| < c.maxTransactions)
                         && (SatSub(bytes, freed) + p.txSize(t) <= c.maxBytes || USIZE_MAX <= c.maxBytes)
  {
    var freed := if replaced.Some? then p.txSize(pool[replaced.value].tx) else 0;
    if p.txHash(t) in pool then Some(DuplicateTransaction)
    else if replaced.None? && |pool| >= c.maxTransactions then Some(MempoolFull)
    else if SatAddSize(SatSub(bytes, freed), p.txSize(t)) > c.maxBytes then Some(MempoolFull)
    else None
  }

  function SatAddSize(a: nat, b: nat): (r: nat)
  {
    if a + b <= USIZE_MAX then a + b else USIZE_MAX
  }

  /** The whole admission decision on a pruned pool; on success, the entry it replaces. */
  function Admission(p: Protocol, c: Config, pool: Pool, bytes: nat, l: Ledger, t: Tx,
                     now: u64): (r: Result<Option<Hash>, MempoolError>)
    ensures r.Ok? && r.value.Some? ==> r.value.value in pool && pool[r.value.value].tx.from == t.from
                                       && pool[r.value.value].tx.nonce == t.nonce && pool[r.value.value].tx.fee < t.fee
  {
    if TimestampVerdict(p, t, now).Some? then Err(TimestampVerdict(p, t, now).value)
    else if p.checkSignedAt(t, now).Some? then Err(InvalidTransaction(p.checkSignedAt(t, now).value))
    else if FeeVerdict(c, t).Some? then Err(FeeVerdict(c, t).value)
    else
      match Replacement(pool, t)
      case Err(e) => Err(e)
      case Ok(replaced) =>
        if LedgerVerdict(p, c, pool, l, t, replaced).Some? then Err(LedgerVerdict(p, c, pool, l, t, replaced).value)
        else if CapacityVerdict(p, c, pool, bytes, t, replaced).Some? then
          Err(CapacityVerdict(p, c, pool, bytes, t, replaced).value)
        else Ok(replaced)
  }

  function Without(pool: Pool, h: Option<Hash>): (r: Pool)
  {
    if h.Some? then pool - {h.value} else pool
  }

  ghost predicate PendingIn(pool: Pool, from: Address, t: Tx)
  {
    t.from == from && exists h :: h in pool && pool[h].tx == t
  }

  /** `chain` lists the sender's pending transactions once each, with nonces counting up from
      the account nonce (up to the 64-bit ceiling) and total cost within `funds`. */
  ghost predicate FundedChain(pool: Pool, account: Account, from: Address, funds: nat, chain: seq<Tx>)
  {
    && (forall t :: t in chain <==> PendingIn(pool, from, t))
    && (forall i, j :: 0 <= i < j < |chain| ==> chain[i] != chain[j])
    && (forall i :: 0 <= i < |chain| ==> chain[i].nonce == SatAdd64(account.nonce, i))
    && Spend(chain) <= funds
  }

  lemma PendingDistinct(p: Protocol, pool: Pool, from: Address, excluded: Option<Hash>)
    requires WellKeyed(p, pool)
    ensures var s := SortBy(PendingFrom(pool, from, excluded), NonceOrder);
            forall i, j :: 0 <= i < j < |s| ==> s[i] != s[j]
  {
    var m := PendingMap(pool, from, excluded);
    var s := PendingFrom(pool, from, excluded);
    var same := (a: Tx, b: Tx) => a == b;
    forall i, j | 0 <= i < j < |s| ensures !same(s[i], s[j]) {
      var keys := Ascending(m.Keys);
      assert s[i] == m[keys[i]] && s[j] == m[keys[j]] && keys[i] < keys[j];
    }
    SortByApart(s, NonceOrder, same);
    var sorted := SortBy(s, NonceOrder);
    forall i, j | 0 <= i < j < |sorted| ensures sorted[i] != sorted[j] { assert !same(sorted[i], sorted[j]); }
  }

  lemma PendingMembers(pool: Pool, from: Address, excluded: Option<Hash>, t: Tx)
    ensures t in SortBy(PendingFrom(pool, from, excluded), NonceOrder) <==> PendingIn(Without(pool, excluded), from, t)
  {
    SortMembers(PendingFrom(pool, from, excluded), NonceOrder, t);
    ValuesMembers(PendingMap(pool, from, excluded), t);
    PendingMapMembers(pool, from, excluded, t);
  }

  lemma PendingMapMembers(pool: Pool, from: Address, excluded: Option<Hash>, t: Tx)
    ensures (exists h :: h in PendingMap(pool, from, excluded) && PendingMap(pool, from, excluded)[h] == t) <==>
              PendingIn(Without(pool, excluded), from, t)
  {
    var m, rest := PendingMap(pool, from, excluded), Without(pool, excluded);
    if h :| h in rest && rest[h].tx == t && t.from == from {
      assert h in m && m[h] == t;
    }
    if h :| h in m && m[h] == t {
      assert h in rest && rest[h].tx == t;
    }
  }

  lemma AdmissionParts(p: Protocol, c: Config, pool: Pool, bytes: nat, l: Ledger, t: Tx, now: u64)
    requires Admission(p, c, pool, bytes, l, t, now).Ok?
    ensures var replaced := Admission(p, c, pool, bytes, l, t, now).value;
            LedgerVerdict(p, c, pool, l, t, replaced).None? && p.txHash(t) !in pool
            && Replacement(pool, t) == Ok(replaced)
  {
    hide Slot, LedgerVerdict, TimestampVerdict, FeeVerdict;
  }

  /** A transaction that passes the ledger check continues a funded chain of its sender. */
  lemma VerdictGivesChain(p: Protocol, c: Config, pool: Pool, l: Ledger, t: Tx, excluded: Option<Hash>)
    requires WellKeyed(p, pool) && LedgerVerdict(p, c, pool, l, t, excluded).None?
    ensures var pending := SortBy(PendingFrom(pool, t.from, excluded), NonceOrder);
            && t.from in l.accounts
            && FundedChain(Without(pool, excluded), l.accounts[t.from], t.from,
                           p.available(l.accounts[t.from], TipHeight(l)), pending)
            && t.nonce == SatAdd64(l.accounts[t.from].nonce, |pending|)
            && Spend(pending) + t.amount + t.fee <= p.available(l.accounts[t.from], TipHeight(l))
  {
    var account := l.accounts[t.from];
    var pending := SortBy(PendingFrom(pool, t.from, excluded), NonceOrder);
    WalkMeaning(pending, account.nonce, p.available(account, TipHeight(l)));
    PendingDistinct(p, pool, t.from, excluded);
    forall u ensures u in pending <==> PendingIn(Without(pool, excluded), t.from, u) {
      PendingMembers(pool, t.from, excluded, u);
    }
  }

  /** Consecutive nonces and enough funds make the walk succeed. */
  lemma {:induction false} WalkSucceeds(pending: seq<Tx>, nonce: u64, spendable: nat)
    requires forall i :: 0 <= i < |pending| ==> pending[i].nonce == SatAdd64(nonce, i)
    requires Spend(pending) <= spendable <= U32_MAX
    ensures Walk(pending, nonce, spendable) == Ok((SatAdd64(nonce, |pending|), spendable - Spend(pending)))
  {
    if pending != [] {
      var left := spendable - pending[0].amount - pending[0].fee;
      forall i | 0 <= i < |pending| - 1 ensures pending[1..][i].nonce == SatAdd64(SatAdd64(nonce, 1), i) {
        assert pending[1..][i] == pending[i + 1];
      }
      WalkSucceeds(pending[1..], SatAdd64(nonce, 1), left);
    }
  }

  /** The sender's pending transactions, without the replaced one, form a funded chain that `t`
      continues within the available balance. */
  ghost predicate Continues(p: Protocol, pool: Pool, l: Ledger, t: Tx, replaced: Option<Hash>)
  {
    && t.from in l.accounts
    && var pending := SortBy(PendingFrom(pool, t.from, replaced), NonceOrder);
       var funds := p.available(l.accounts[t.from], TipHeight(l));
       FundedChain(Without(pool, replaced), l.accounts[t.from], t.from, funds, pending)
       && t.nonce == SatAdd64(l.accounts[t.from].nonce, |pending|) && Spend(pending) + t.amount + t.fee <= funds
  }

  /** The ledger check passes exactly for signed transactions with enough fee that continue the
      sender's chain. */
  lemma LedgerVerdictExactly(p: Protocol, c: Config, pool: Pool, l: Ledger, t: Tx, replaced: Option<Hash>)
    requires WellKeyed(p, pool)
    ensures LedgerVerdict(p, c, pool, l, t, replaced).None? <==>
            p.checkSigned(t).None? && FeeVerdict(c, t).None? && Continues(p, pool, l, t, replaced)
  {
    if LedgerVerdict(p, c, pool, l, t, replaced).None? { VerdictGivesChain(p, c, pool, l, t, replaced); }
    if Continues(p, pool, l, t, replaced) {
      WalkSucceeds(SortBy(PendingFrom(pool, t.from, replaced), NonceOrder), l.accounts[t.from].nonce,
                   p.available(l.accounts[t.from], TipHeight(l)));
    }
  }

  /** A transaction is admitted exactly when it is timely, signed, pays enough, outbids the pending
      transaction it replaces if any, continues its sender's funded chain, and fits the limits. */
  lemma AdmissionExactly(p: Protocol, c: Config, pool: Pool, bytes: nat, l: Ledger, t: Tx, now: u64,
                         replaced: Option<Hash>)
    requires WellKeyed(p, pool)
    ensures Admission(p, c, pool, bytes, l, t, now) == Ok(replaced) <==>
            && t.timestamp <= now + p.relayFutureSecs && now <= t.timestamp + 86400
            && p.checkSignedAt(t, now).None? && p.checkSigned(t).None?
            && t.fee > 0 && t.fee >= c.minRelayFee
            && replaced == Slot(pool, t.from, t.nonce) && (replaced.Some? ==> pool[replaced.value].tx.fee < t.fee)
            && Continues(p, pool, l, t, replaced)
            && p.txHash(t) !in pool && (replaced.None? ==> |pool| < c.maxTransactions)
            && var freed := if replaced.Some? then p.txSize(pool[replaced.value].tx) else 0;
               SatSub(bytes, freed) + p.txSize(t) <= c.maxBytes || USIZE_MAX <= c.maxBytes
  {
    hide TimestampVerdict, FeeVerdict, LedgerVerdict, CapacityVerdict, Continues, Slot;
    LedgerVerdictExactly(p, c, pool, l, t, Slot(pool, t.from, t.nonce));
  }

  /** The reason a refusal gives, in the order of the checks. */
  lemma AdmissionRefused(p: Protocol, c: Config, pool: Pool, bytes: nat, l: Ledger, t: Tx, now: u64)
    ensures var r, slot := Admission(p, c, pool, bytes, l, t, now), Slot(pool, t.from, t.nonce);
            if t.timestamp > now + p.relayFutureSecs then r == Err(InvalidTransaction(FromFuture))
            else if now > t.timestamp + 86400 then r == Err(InvalidTransaction(Expired))
            else if p.checkSignedAt(t, now).Some? then r == Err(InvalidTransaction(p.checkSignedAt(t, now).value))
            else if t.fee == 0 || t.fee < c.minRelayFee then r == Err(FeeTooLow)
            else if slot.Some? && t.fee <= pool[slot.value].tx.fee then r == Err(ReplacementFeeTooLow)
            else if p.checkSigned(t).Some? then r == Err(InvalidTransaction(p.checkSigned(t).value))
            else if t.from !in l.accounts then r == Err(InvalidLedgerState(AccountNotFound))
            else r.Ok? || r.error.InvalidLedgerState? || (p.txHash(t) in pool && r == Err(DuplicateTransaction))
                 || (p.txHash(t) !in pool && r == Err(MempoolFull))
  {
    hide Slot, Walk, StepTx, SortBy, PendingFrom, CapacityVerdict;
  }

  /** An admitted transaction completes a funded chain of its sender, whatever the pool was
      before; the new transaction is its last link. */
  lemma AdmissionGivesFundedChain(p: Protocol, c: Config, pool: Pool, bytes: nat, l: Ledger, t: Tx, now: u64)
    returns (chain: seq<Tx>)
    requires WellKeyed(p, pool) && Admission(p, c, pool, bytes, l, t, now).Ok?
    ensures var replaced := Admission(p, c, pool, bytes, l, t, now).value;
            var after := Without(pool, replaced)[p.txHash(t) := Entry(t, now)];
            && t.from in l.accounts
            && FundedChain(after, l.accounts[t.from], t.from, p.available(l.accounts[t.from], TipHeight(l)), chain)
            && |chain| > 0 && chain[|chain| - 1] == t
  {
    var replaced := Admission(p, c, pool, bytes, l, t, now).value;
    AdmissionParts(p, c, pool, bytes, l, t, now);
    VerdictGivesChain(p, c, pool, l, t, replaced);
    chain := ExtendChain(p, Without(pool, replaced), l.accounts[t.from], p.available(l.accounts[t.from], TipHeight(l)),
                         t, now, SortBy(PendingFrom(pool, t.from, replaced), NonceOrder));
  }

  lemma ExtendChain(p: Protocol, pool: Pool, account: Account, funds: nat, t: Tx, now: u64, pending: seq<Tx>)
    returns (chain: seq<Tx>)
    requires WellKeyed(p, pool) && p.txHash(t) !in pool
    requires FundedChain(pool, account, t.from, funds, pending)
    requires t.nonce == SatAdd64(account.nonce, |pending|) && Spend(pending) + t.amount + t.fee <= funds
    ensures FundedChain(pool[p.txHash(t) := Entry(t, now)], account, t.from, funds, chain)
    ensures chain == pending + [t]
  {
    chain := pending + [t];
    SpendAppend(pending, t);
    AppendPending(p, pool, t, now, pending);
  }

  lemma AppendPending(p: Protocol, pool: Pool, t: Tx, now: u64, pending: seq<Tx>)
    requires WellKeyed(p, pool) && p.txHash(t) !in pool
    requires forall u :: u in pending <==> PendingIn(pool, t.from, u)
    ensures forall u :: u in pending + [t] <==> PendingIn(pool[p.txHash(t) := Entry(t, now)], t.from, u)
    ensures t !in pending
  {
    var after := pool[p.txHash(t) := Entry(t, now)];
    forall u ensures u in pending + [t] <==> PendingIn(after, t.from, u) {
      if u in pending {
        var h :| h in pool && pool[h].tx == u;
        assert after[h].tx == u;
      }
      if u == t { assert after[p.txHash(t)].tx == t; }
    }
  }

  /** A fee replacement is only ever admitted for the sender's highest pending nonce. */
  lemma ReplacementIsHighest(p: Protocol, c: Config, pool: Pool, bytes: nat, l: Ledger, t: Tx, now: u64, h: Hash)
    requires WellKeyed(p, pool)
    requires Admission(p, c, pool, bytes, l, t, now) == Ok(Some(h))
    ensures forall k :: k in pool && pool[k].tx.from == t.from ==> pool[k].tx.nonce <= pool[h].tx.nonce
    ensures forall k :: k in pool && pool[k].tx.from == t.from && k != h && t.nonce < U64_MAX ==>
              pool[k].tx.nonce < pool[h].tx.nonce
  {
    AdmissionParts(p, c, pool, bytes, l, t, now);
    VerdictGivesChain(p, c, pool, l, t, Some(h));
    var account := l.accounts[t.from];
    ChainBelow(pool, h, account, t.from, p.available(account, TipHeight(l)),
               SortBy(PendingFrom(pool, t.from, Some(h)), NonceOrder));
  }

  /** Every link of a funded chain lies below the nonce that would continue it. */
  lemma ChainBelow(pool: Pool, h: Hash, account: Account, from: Address, funds: nat, chain: seq<Tx>)
    requires FundedChain(Without(pool, Some(h)), account, from, funds, chain)
    ensures var next := SatAdd64(account.nonce, |chain|);
            forall k :: k in pool && pool[k].tx.from == from && k != h ==>
              pool[k].tx.nonce <= next && (next < U64_MAX ==> pool[k].tx.nonce < next)
  {
    var rest := Without(pool, Some(h));
    forall k | k in pool && pool[k].tx.from == from && k != h ensures pool[k].tx in chain {
      assert rest[k].tx == pool[k].tx;
    }
  }

  /** What a transaction takes from an address. */
  function Outgoing(address: Address): Tx -> nat
  {
    (t: Tx) => if t.from == address then t.amount + t.fee else 0
  }

  function Incoming(address: Address): Tx -> nat
  {
    (t: Tx) => if t.to == address then t.amount else 0
  }

  /** An entry adds its amount to what its receiver expects, and amount plus fee to what leaves its
      sender; an empty pool moves nothing. */
  lemma BalancesMove(pool: Pool, h: Hash, e: Entry, address: Address)
    requires h !in pool
    ensures Total(map[], Incoming(address)) == 0 && Total(map[], Outgoing(address)) == 0
    ensures Total(pool[h := e], Incoming(address))
            == Total(pool, Incoming(address)) + if e.tx.to == address then e.tx.amount as nat else 0
    ensures Total(pool[h := e], Outgoing(address))
            == Total(pool, Outgoing(address)) + if e.tx.from == address then e.tx.amount + e.tx.fee else 0
  {
    TotalInsert(pool, Incoming(address), h, e);
    TotalInsert(pool, Outgoing(address), h, e);
  }

  lemma {:induction false} NothingOutgoing(pool: Pool, from: Address)
    requires forall h :: h in pool ==> pool[h].tx.from != from
    ensures Total(pool, Outgoing(from)) == 0
    decreases |pool|
  {
    if pool != map[] {
      var h :| h in pool;
      TotalRemove(pool, Outgoing(from), h);
      NothingOutgoing(pool - {h}, from);
    }
  }

  /** The cost of a sender's chain is all that the pool takes from the sender. */
  lemma {:induction false} ChainCost(p: Protocol, pool: Pool, from: Address, chain: seq<Tx>)
    requires WellKeyed(p, pool)
    requires forall t :: t in chain <==> PendingIn(pool, from, t)
    requires forall i, j :: 0 <= i < j < |chain| ==> chain[i] != chain[j]
    ensures Total(pool, Outgoing(from)) == Spend(chain)
    decreases |chain|
  {
    if chain == [] {
      forall h | h in pool ensures pool[h].tx.from != from {
        assert PendingIn(pool, pool[h].tx.from, pool[h].tx);
      }
      NothingOutgoing(pool, from);
    } else {
      var n := |chain| - 1;
      var last := chain[n];
      assert last in chain;
      var h :| h in pool && pool[h].tx == last;
      assert chain == chain[..n] + [last];
      DropPending(p, pool, from, chain[..n], last, h);
      ChainCost(p, pool - {h}, from, chain[..n]);
      TotalRemove(pool, Outgoing(from), h);
      SpendAppend(chain[..n], last);
    }
  }

  /** After an admission the pending outgoing amount of the sender is the exact sum of its chain
      and within its spendable balance, so the 32-bit cap never applies. */
  lemma OutgoingWithinFunds(p: Protocol, c: Config, pool: Pool, bytes: nat, l: Ledger, t: Tx, now: u64)
    returns (chain: seq<Tx>)
    requires HashLaw(p) && WellKeyed(p, pool) && Admission(p, c, pool, bytes, l, t, now).Ok?
    ensures t.from in l.accounts
    ensures var after := Without(pool, Admission(p, c, pool, bytes, l, t, now).value)[p.txHash(t) := Entry(t, now)];
            && (forall u :: u in chain <==> PendingIn(after, t.from, u))
            && Total(after, Outgoing(t.from)) == Spend(chain)
            && Spend(chain) <= p.available(l.accounts[t.from], TipHeight(l)) <= U32_MAX
  {
    chain := AdmissionGivesFundedChain(p, c, pool, bytes, l, t, now);
    var after := Without(pool, Admission(p, c, pool, bytes, l, t, now).value)[p.txHash(t) := Entry(t, now)];
    ChainCost(p, after, t.from, chain);
  }

  lemma DropPending(p: Protocol, pool: Pool, from: Address, chain: seq<Tx>, last: Tx, h: Hash)
    requires WellKeyed(p, pool) && h in pool && pool[h].tx == last && last !in chain
    requires forall t :: t in chain + [last] <==> PendingIn(pool, from, t)
    ensures forall t :: t in chain <==> PendingIn(pool - {h}, from, t)
  {
    forall t ensures t in chain <==> PendingIn(pool - {h}, from, t) {
      if t in chain {
        assert t in chain + [last];
        var k :| k in pool && pool[k].tx == t;
        assert (pool - {h})[k].tx == t;
      }
      if PendingIn(pool - {h}, from, t) {
        var k :| k in pool - {h} && (pool - {h})[k].tx == t;
        assert pool[k].tx == t;
        assert t in chain + [last];
      }
    }
  }

  /** Nonces of a funded chain are exactly consecutive if and only if the chain ends below the
      64-bit ceiling. */
  lemma ConsecutiveUnlessSaturated(pool: Pool, account: Account, from: Address, funds: nat, chain: seq<Tx>)
    requires FundedChain(pool, account, from, funds, chain) && |chain| > 0
    ensures (forall i :: 0 <= i < |chain| ==> chain[i].nonce == account.nonce + i) <==>
              account.nonce + |chain| - 1 <= U64_MAX
  {
    assert chain[|chain| - 1].nonce == SatAdd64(account.nonce, |chain| - 1);
  }

  /** An admitted transaction has not been executed on the ledger it was admitted against. */
  lemma AdmittedNonce(p: Protocol, c: Config, pool: Pool, bytes: nat, l: Ledger, t: Tx, now: u64)
    requires WellKeyed(p, pool) && Admission(p, c, pool, bytes, l, t, now).Ok?
    ensures t.from in l.accounts && l.accounts[t.from].nonce <= t.nonce
  {
    AdmissionParts(p, c, pool, bytes, l, t, now);
    VerdictGivesChain(p, c, pool, l, t, Admission(p, c, pool, bytes, l, t, now).value);
  }
}
