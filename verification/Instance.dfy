/** A small rule set that satisfies every assumption made about the protocol library, so the
    theorems are not about nothing. */
module Instance {
  import opened Types
  import opened Protocols
  import opened ForkTree
  import opened Ranks

  /** An injective pairing of numbers, never zero. */
  function Pair(a: nat, b: nat): (r: nat)
    ensures r > 0
  {
    if a == 0 then 2 * b + 1 else 2 * Pair(a - 1, b)
  }

  lemma {:induction false} PairInjective(a: nat, b: nat, c: nat, d: nat)
    requires Pair(a, b) == Pair(c, d)
    ensures a == c && b == d
  {
    if a > 0 && c > 0 { PairInjective(a - 1, b, c - 1, d); }
  }

  function TxNumber(t: Tx): (r: nat)
  {
    Pair(t.from, Pair(t.to, Pair(t.amount, Pair(t.fee, Pair(t.nonce, Pair(t.timestamp, t.seal))))))
  }

  lemma TxNumberInjective(s: Tx, t: Tx)
    requires TxNumber(s) == TxNumber(t)
    ensures s == t
  {
    hide Pair;
    PairInjective(s.from, Pair(s.to, Pair(s.amount, Pair(s.fee, Pair(s.nonce, Pair(s.timestamp, s.seal))))),
                  t.from, Pair(t.to, Pair(t.amount, Pair(t.fee, Pair(t.nonce, Pair(t.timestamp, t.seal))))));
    PairInjective(s.to, Pair(s.amount, Pair(s.fee, Pair(s.nonce, Pair(s.timestamp, s.seal)))),
                  t.to, Pair(t.amount, Pair(t.fee, Pair(t.nonce, Pair(t.timestamp, t.seal)))));
    PairInjective(s.amount, Pair(s.fee, Pair(s.nonce, Pair(s.timestamp, s.seal))), t.amount,
                  Pair(t.fee, Pair(t.nonce, Pair(t.timestamp, t.seal))));
    PairInjective(s.fee, Pair(s.nonce, Pair(s.timestamp, s.seal)), t.fee, Pair(t.nonce, Pair(t.timestamp, t.seal)));
    PairInjective(s.nonce, Pair(s.timestamp, s.seal), t.nonce, Pair(t.timestamp, t.seal));
    PairInjective(s.timestamp, s.seal, t.timestamp, t.seal);
  }

  function TxsNumber(txs: seq<Tx>): (r: nat)
  {
    if txs == [] then 0 else Pair(TxNumber(txs[0]), TxsNumber(txs[1..]))
  }

  lemma {:induction false} TxsNumberInjective(s: seq<Tx>, t: seq<Tx>)
    requires TxsNumber(s) == TxsNumber(t)
    ensures s == t
  {
    hide Pair, TxNumber;
    if s != [] && t != [] {
      PairInjective(TxNumber(s[0]), TxsNumber(s[1..]), TxNumber(t[0]), TxsNumber(t[1..]));
      TxNumberInjective(s[0], t[0]);
      TxsNumberInjective(s[1..], t[1..]);
      assert s == [s[0]] + s[1..] && t == [t[0]] + t[1..];
    }
  }

  function CoinbaseNumber(c: Option<Coinbase>): (r: nat)
  {
    if c.None? then 0 else Pair(c.value.miner, Pair(c.value.subsidy, c.value.fees))
  }

  lemma CoinbaseNumberInjective(a: Option<Coinbase>, b: Option<Coinbase>)
    requires CoinbaseNumber(a) == CoinbaseNumber(b)
    ensures a == b
  {
    hide Pair;
    if a.Some? && b.Some? {
      PairInjective(a.value.miner, Pair(a.value.subsidy, a.value.fees), b.value.miner,
                    Pair(b.value.subsidy, b.value.fees));
      PairInjective(a.value.subsidy, a.value.fees, b.value.subsidy, b.value.fees);
    }
  }

  function HeaderNumber(b: Block): (r: nat)
  {
    Pair(b.height, Pair(b.prev, Pair(b.miner, Pair(b.difficulty, Pair(b.timestamp, Pair(b.nonce, b.stateRoot))))))
  }

  lemma HeaderNumberInjective(s: Block, t: Block)
    requires HeaderNumber(s) == HeaderNumber(t)
    ensures s.height == t.height && s.prev == t.prev && s.miner == t.miner && s.difficulty == t.difficulty
    ensures s.timestamp == t.timestamp && s.nonce == t.nonce && s.stateRoot == t.stateRoot
  {
    hide Pair;
    PairInjective(
      s.height, Pair(s.prev, Pair(s.miner, Pair(s.difficulty, Pair(s.timestamp, Pair(s.nonce, s.stateRoot))))),
      t.height, Pair(t.prev, Pair(t.miner, Pair(t.difficulty, Pair(t.timestamp, Pair(t.nonce, t.stateRoot))))));
    PairInjective(s.prev, Pair(s.miner, Pair(s.difficulty, Pair(s.timestamp, Pair(s.nonce, s.stateRoot)))),
                  t.prev, Pair(t.miner, Pair(t.difficulty, Pair(t.timestamp, Pair(t.nonce, t.stateRoot)))));
    PairInjective(s.miner, Pair(s.difficulty, Pair(s.timestamp, Pair(s.nonce, s.stateRoot))), t.miner,
                  Pair(t.difficulty, Pair(t.timestamp, Pair(t.nonce, t.stateRoot))));
    PairInjective(s.difficulty, Pair(s.timestamp, Pair(s.nonce, s.stateRoot)), t.difficulty,
                  Pair(t.timestamp, Pair(t.nonce, t.stateRoot)));
    PairInjective(s.timestamp, Pair(s.nonce, s.stateRoot), t.timestamp, Pair(t.nonce, t.stateRoot));
    PairInjective(s.nonce, s.stateRoot, t.nonce, t.stateRoot);
  }

  function BlockNumber(b: Block): (r: nat)
  {
    Pair(HeaderNumber(b), Pair(CoinbaseNumber(b.coinbase), TxsNumber(b.txs)))
  }

  lemma BlockNumberInjective(s: Block, t: Block)
    requires BlockNumber(s) == BlockNumber(t)
    ensures s == t
  {
    hide Pair, HeaderNumber, CoinbaseNumber, TxsNumber;
    PairInjective(HeaderNumber(s), Pair(CoinbaseNumber(s.coinbase), TxsNumber(s.txs)), HeaderNumber(t),
                  Pair(CoinbaseNumber(t.coinbase), TxsNumber(t.txs)));
    PairInjective(CoinbaseNumber(s.coinbase), TxsNumber(s.txs), CoinbaseNumber(t.coinbase), TxsNumber(t.txs));
    HeaderNumberInjective(s, t);
    CoinbaseNumberInjective(s.coinbase, t.coinbase);
    TxsNumberInjective(s.txs, t.txs);
  }

  /** One transfer of nothing: the sender's nonce must match and goes up, the receiver gets an account. */
  function ExecuteTx(accounts: Accounts, t: Tx): (r: Result<Accounts, LedgerError>)
  {
    if t.from !in accounts || accounts[t.from].nonce != t.nonce || t.nonce == U64_MAX then
      Err(InvalidState(InvalidNonce))
    else
      var paid := accounts[t.from := accounts[t.from].(nonce := t.nonce + 1)];
      Ok(if t.to in paid then paid else paid[t.to := Account(t.to, 0, 0)])
  }

  function ExecuteTxs(accounts: Accounts, txs: seq<Tx>): (r: Result<Accounts, LedgerError>)
  {
    if txs == [] then Ok(accounts)
    else
      match ExecuteTxs(accounts, txs[..|txs| - 1])
      case Err(e) => Err(e)
      case Ok(before) => ExecuteTx(before, txs[|txs| - 1])
  }

  const ALLOCATION: Address := 7

  function Open(accounts: Accounts, a: Address): (r: Accounts)
  {
    if a in accounts then accounts else accounts[a := Account(a, 0, 0)]
  }

  /** Executes the transactions of a block and opens an account for its miner. Genesis has no
      transactions and opens the allocation account. */
  function ExecuteBlock(l: Ledger, b: Block): (r: Result<Accounts, LedgerError>)
  {
    if b.height == 0 then if b.txs == [] then Ok(Open(l.accounts, ALLOCATION)) else Err(OtherLedgerError(0))
    else
      match ExecuteTxs(l.accounts, b.txs)
      case Err(e) => Err(e)
      case Ok(accounts) => Ok(Open(accounts, b.miner))
  }

  /** Accounts stay, keep their keys, and their nonces never fall. */
  ghost predicate Widens(before: Accounts, after: Accounts)
  {
    && (forall a :: a in before ==> a in after && before[a].nonce <= after[a].nonce)
    && (Keyed(before) ==> Keyed(after))
  }

  ghost predicate Names(txs: seq<Tx>, a: Address)
  {
    exists t :: t in txs && (t.from == a || t.to == a)
  }

  lemma NamesMore(txs: seq<Tx>, t: Tx, a: Address)
    ensures Names(txs, a) ==> Names(txs + [t], a)
  {
    if u :| u in txs && (u.from == a || u.to == a) { assert u in txs + [t]; }
  }

  /** Only named accounts change or appear. */
  ghost predicate Spares(before: Accounts, txs: seq<Tx>, after: Accounts)
  {
    forall a :: a in after && !Names(txs, a) ==> a in before && after[a] == before[a]
  }

  /** Each transaction lies between the sender's nonces before and after. */
  ghost predicate Between(before: Accounts, t: Tx, after: Accounts)
  {
    && t.from in after && t.nonce < after[t.from].nonce
    && (t.from in before ==> before[t.from].nonce <= t.nonce)
  }

  ghost predicate AllBetween(before: Accounts, txs: seq<Tx>, after: Accounts)
  {
    forall t :: t in txs ==> Between(before, t, after)
  }

  ghost predicate RisePerSender(txs: seq<Tx>)
  {
    forall i, j :: 0 <= i < j < |txs| && txs[i].from == txs[j].from ==> txs[i].nonce < txs[j].nonce
  }

  /** One executed transaction, seen from outside. */
  ghost predicate Transfer(before: Accounts, t: Tx, after: Accounts)
  {
    && t.from in before && before[t.from].nonce == t.nonce && t.from in after && after[t.from].nonce == t.nonce + 1
    && Widens(before, after)
    && (forall a :: a in after && a != t.from && a != t.to ==> a in before && after[a] == before[a])
  }

  lemma TransferFacts(before: Accounts, t: Tx)
    requires ExecuteTx(before, t).Ok?
    ensures Transfer(before, t, ExecuteTx(before, t).value)
  {
  }

  lemma WidensTwice(a: Accounts, b: Accounts, c: Accounts)
    requires Widens(a, b) && Widens(b, c)
    ensures Widens(a, c)
  {
  }

  lemma SparesStep(before: Accounts, txs: seq<Tx>, mid: Accounts, t: Tx, after: Accounts)
    requires Spares(before, txs, mid) && Transfer(mid, t, after)
    ensures Spares(before, txs + [t], after)
  {
    forall a | a in after && !Names(txs + [t], a) ensures a in before && after[a] == before[a] {
      assert t in txs + [t];
      NamesMore(txs, t, a);
    }
  }

  lemma BetweenStep(before: Accounts, txs: seq<Tx>, mid: Accounts, t: Tx, after: Accounts)
    requires AllBetween(before, txs, mid) && RisePerSender(txs) && Widens(before, mid) && Transfer(mid, t, after)
    ensures AllBetween(before, txs + [t], after) && RisePerSender(txs + [t])
  {
    forall u | u in txs + [t] ensures Between(before, u, after) {
      if u in txs { assert Between(before, u, mid); }
    }
    forall i, j | 0 <= i < j < |txs + [t]| && (txs + [t])[i].from == (txs + [t])[j].from
      ensures (txs + [t])[i].nonce < (txs + [t])[j].nonce
    {
      if j == |txs| { assert Between(before, txs[i], mid); }
    }
  }

  /** What executing a list of transactions keeps and requires. */
  lemma {:induction false} ExecuteLaw(before: Accounts, txs: seq<Tx>)
    requires ExecuteTxs(before, txs).Ok?
    ensures var after := ExecuteTxs(before, txs).value;
            Widens(before, after) && Spares(before, txs, after) && AllBetween(before, txs, after) && RisePerSender(txs)
  {
    if txs != [] {
      var n := |txs| - 1;
      var rest, t := txs[..n], txs[n];
      assert txs == rest + [t];
      ExecuteLaw(before, rest);
      var mid, after := ExecuteTxs(before, rest).value, ExecuteTxs(before, txs).value;
      TransferFacts(mid, t);
      hide ExecuteTxs, ExecuteTx, Spares, AllBetween, RisePerSender, Widens;
      TransferWidens(mid, t, after);
      WidensTwice(before, mid, after);
      SparesStep(before, rest, mid, t, after);
      BetweenStep(before, rest, mid, t, after);
    }
  }

  lemma TransferWidens(before: Accounts, t: Tx, after: Accounts)
    requires Transfer(before, t, after)
    ensures Widens(before, after)
  {
  }

  lemma ExecuteBlockLaw(l: Ledger, b: Block)
    requires ExecuteBlock(l, b).Ok?
    ensures TransitionStep(l.accounts, b, ExecuteBlock(l, b).value)
  {
    hide ExecuteTxs;
    if b.height > 0 {
      ExecuteLaw(l.accounts, b.txs);
      var mid, after := ExecuteTxs(l.accounts, b.txs).value, ExecuteBlock(l, b).value;
      forall a | a in after && a !in Touched(b) ensures a in l.accounts && after[a] == l.accounts[a] {
        assert !Names(b.txs, a);
      }
      forall t | t in b.txs
        ensures t.from in after && t.nonce < after[t.from].nonce
        ensures t.from in l.accounts ==> l.accounts[t.from].nonce <= t.nonce
      {
        assert Between(l.accounts, t, mid);
      }
    }
  }

  function OneHigher(b: Block, parent: Block): (r: Option<ConsensusError>)
  {
    if b.height == parent.height + 1 && |b.txs| <= U32_MAX + 1 then None else Some(OtherConsensusError(0))
  }

  const ROOT: Block := Block(0, ZERO_HASH, 6, 0, 0, 0, ZERO_HASH, None, [])

  predicate Higher(nodes: map<Hash, Block>, best: Hash, h: Hash)
  {
    best in nodes && h in nodes && nodes[h].height > nodes[best].height
  }

  function Example(): Protocol
  {
    Protocol(
      BlockNumber, TxNumber, (t: Tx) => 1,
      ExecuteBlock, (l: Ledger, b: Block) => Ok(1), (a: Accounts) => 1, (l: Ledger, h: u64) => Ok(0),
      (a: Account, h: nat) => 10 as u32, Higher, 1, 1, (d: nat, first: u64, last: u64, n: nat) => Ok(d),
      (b: Block, now: u64) => if b.prev == ZERO_HASH then None else Some(OtherConsensusError(1)),
      (b: Block, parent: Block, now: u64) => OneHigher(b, parent), (h: u64, d: Hash) => true,
      (b: Block) => Ok(1), (d: Hash, n: nat) => true, (h: u64) => false,
      (t: Tx) => None, (t: Tx, now: u64) => None, 0, 1, ROOT)
  }

  /** The assumed contract can be met, with genesis accounts at hand. */
  lemma ExampleIsLawful()
    ensures Lawful(Example())
    ensures Example().transition(Ledger(map[], []), ROOT) == Ok(map[7 := Account(7, 0, 0)])
  {
    hide BlockNumber, TxNumber;
    var p := Example();
    forall a, b | p.hash(a) == p.hash(b) ensures a == b { BlockNumberInjective(a, b); }
    forall s, t | p.txHash(s) == p.txHash(t) ensures s == t { TxNumberInjective(s, t); }
    forall b ensures p.hash(b) != ZERO_HASH { HashPositive(b); }
    forall l, b | p.transition(l, b).Ok? ensures TransitionStep(l.accounts, b, p.transition(l, b).value) {
      ExecuteBlockLaw(l, b);
    }
    hide ExecuteTxs;
    assert ExecuteTxs(map[], []) == Ok(map[]) by { NothingToExecute(map[]); }
  }

  lemma NothingToExecute(accounts: Accounts)
    ensures ExecuteTxs(accounts, []) == Ok(accounts)
  {
  }

  lemma HashPositive(b: Block)
    ensures BlockNumber(b) != ZERO_HASH
  {
  }

  lemma {:induction false} UnitWeight(br: seq<Block>)
    ensures Weight((b: Block) => 1, br) == |br|
  {
    if br != [] { UnitWeight(br[..|br| - 1]); }
  }

  /** So can fork choice by work. */
  lemma ExampleIsRanked()
    ensures RankRule(Example(), Heavier((b: Block) => 1))
  {
    var p, work := Example(), (b: Block) => 1;
    WorkIsRank(p, work);
    forall nodes, best, h | Tree(p, nodes) && best in nodes && h in nodes
      ensures p.prefers(nodes, best, h) <==> Beats(p, Heavier(work), nodes, h, best)
    {
      UnitWeight(Branch(p, nodes, h));
      UnitWeight(Branch(p, nodes, best));
    }
  }
}
