/** Concrete inputs on which four tempting properties fail. The exact conditions are proved in
    `Consistency`, `Pruning` and `Readmission`. */
module Counterexamples {
  import opened Types
  import opened Protocols
  import opened ForkTree
  import opened Replays
  import opened TxIndex
  import opened MempoolRules
  import opened Ordered
  import opened Pruning
  import opened Consistency
  import opened Readmission
  import opened Nodes
  import opened Instance

  const PREMINE: Accounts := map[7 := Account(7, 0, 0)]
  const TRANSFER: Tx := Tx(7, 8, 0, 1, 0, 0, 0)
  const CONFIG: Config := Config(10, 10, 50, 20, 1, 1)

  /** A block of the example protocol on top of a parent. */
  function On(parent: Block, height: u64, nonce: nat, txs: seq<Tx>): (r: Block)
  {
    Block(height, BlockNumber(parent), 7, 1, 0, nonce, 1, None, txs)
  }

  /** Such a block passes every check when it can be executed. */
  lemma EasyBlock(ga: Accounts, br: seq<Block>, l: Ledger, b: Block, accounts: Accounts)
    requires |br| > 0 && Replay(Example(), ga, br) == Ok(l) && (|br| > 1 ==> br[|br| - 1].difficulty == 1)
    requires br[|br| - 1].height + 1 == |br| == b.height && b.prev == BlockNumber(br[|br| - 1]) && b.difficulty == 1
    requires b.stateRoot == 1
    requires |b.txs| <= 1 && ExecuteBlock(l, b) == Ok(accounts)
    ensures Passes(Example(), ga, br, b, 0)
    ensures Apply(Example(), l, b) == Ok(Ledger(accounts, br + [b]))
  {
    hide BlockNumber, ExecuteBlock;
  }

  /** Genesis alone is a consistent state, with or without genesis accounts. */
  lemma RootConsistent(ga: Accounts)
    requires Keyed(ga)
    ensures Consistent(Example(), ga, Ledger(ga, [ROOT]), RootOnly(Example(), ROOT))
    ensures Branch(Example(), RootOnly(Example(), ROOT).nodes, BlockNumber(ROOT)) == [ROOT]
  {
    hide BlockNumber;
    assert Tree(Example(), RootOnly(Example(), ROOT).nodes);
  }

  /** Accepts one block of the example protocol. */
  lemma AcceptOn(ga: Accounts, l: Ledger, fc: ForkChoice, parent: Block, lp: Ledger, b: Block, accounts: Accounts)
    requires Consistent(Example(), ga, l, fc) && b.prev == BlockNumber(parent) && BlockNumber(parent) in fc.nodes
    requires fc.nodes[BlockNumber(parent)] == parent
    requires BlockNumber(b) !in fc.nodes && b.difficulty == 1 && b.stateRoot == 1 && b.height == parent.height + 1
    requires (parent.height > 0 ==> parent.difficulty == 1) && |b.txs| <= 1
    requires Replay(Example(), ga, Branch(Example(), fc.nodes, BlockNumber(parent))) == Ok(lp)
    requires ExecuteBlock(lp, b) == Ok(accounts)
    ensures Passes(Example(), ga, Branch(Example(), fc.nodes, b.prev), b, 0)
    ensures ga != map[] || b.prev == fc.best ==>
              Acceptable(Example(), ga, fc, b, 0) && Insert(Example(), fc, b) == Ok(AfterBlock(Example(), ga, fc, b, 0))
    ensures var p := Example();
            && Insert(p, fc, b).Ok? && Grown(p, ga, Insert(p, fc, b).value.nodes)
            && Branch(p, Insert(p, fc, b).value.nodes, p.hash(b)) == Branch(p, fc.nodes, b.prev) + [b]
            && (forall h :: h in fc.nodes ==> Branch(p, Insert(p, fc, b).value.nodes, h) == Branch(p, fc.nodes, h))
            && Replay(p, ga, Branch(p, Insert(p, fc, b).value.nodes, p.hash(b)))
               == Ok(Ledger(accounts, lp.blocks + [b]))
            && (Insert(p, fc, b).value.best != p.hash(b) ==> Consistent(p, ga, l, Insert(p, fc, b).value))
            && (Insert(p, fc, b).value.best == p.hash(b) ==>
                  Consistent(p, ga, Ledger(accounts, lp.blocks + [b]), Insert(p, fc, b).value))
  {
    hide Tree, AllReplay, Branch, Replay, BlockNumber, ExecuteBlock;
    var p := Example();
    ExampleIsLawful();
    var br := Branch(p, fc.nodes, b.prev);
    EasyBlock(ga, br, lp, b, accounts);
    AcceptKeepsConsistent(p, ga, l, fc, b, 0);
  }

  /** Without genesis accounts the order of two sibling blocks decides which one gets in. */
  lemma OrderMatters()
    ensures var p, l, fc := Example(), Ledger(map[], [ROOT]), RootOnly(Example(), ROOT);
            var b, c := On(ROOT, 1, 0, []), On(ROOT, 1, 1, []);
            var fcB, fcC := AfterBlock(p, map[], fc, b, 0), AfterBlock(p, map[], fc, c, 0);
            && Consistent(p, map[], l, fc) && Acceptable(p, map[], fc, b, 0) && Acceptable(p, map[], fc, c, 0)
            && AfterBlock(p, map[], fcB, c, 0).nodes != AfterBlock(p, map[], fcC, b, 0).nodes
            && Apply(p, l, b).Ok? && Consistent(p, map[], Apply(p, l, b).value, fcB)
            && KnownParentVerdict(p, map[], Apply(p, l, b).value, fcB, c, 0) == Some(MissingGenesisState)
  {
    hide Tree, AllReplay, Branch, Replay, BlockNumber, BranchVerdict, KnownParentVerdict, Acceptable;
    var p, l, fc := Example(), Ledger(map[], [ROOT]), RootOnly(Example(), ROOT);
    var b, c := On(ROOT, 1, 0, []), On(ROOT, 1, 1, []);
    ExampleIsLawful();
    RootConsistent(map[]);
    NothingToExecute(map[]);
    Apart(ROOT, b);
    Apart(ROOT, c);
    Apart(b, c);
    AcceptOn(map[], l, fc, ROOT, l, b, PREMINE);
    AcceptOn(map[], l, fc, ROOT, l, c, PREMINE);
    AcceptedExactly(p, map[], l, fc, b, 0);
    AcceptedExactly(p, map[], l, fc, c, 0);
    LateSiblingRefused(p, l, fc, b, c, 0);
    FirstComeOnly(p, map[], l, fc, b, c, 0);
  }

  /** A block in the tree can be reported as an error when it comes again: here the active tip itself,
      on a node without genesis accounts, and genesis on any node. */
  lemma RepeatReported()
    ensures var p, l, fc := Example(), Ledger(map[], [ROOT]), RootOnly(Example(), ROOT);
            var b := On(ROOT, 1, 0, []);
            var fcB := AfterBlock(p, map[], fc, b, 0);
            && p.hash(b) in fcB.nodes && fcB.best == p.hash(b)
            && Apply(p, l, b).Ok? && Consistent(p, map[], Apply(p, l, b).value, fcB)
            && Reported(KnownParentVerdict(p, map[], Apply(p, l, b).value, fcB, b, 0)) == Some(MissingGenesisState)
    ensures var p, l, fc := Example(), Ledger(PREMINE, [ROOT]), RootOnly(Example(), ROOT);
            && p.hash(ROOT) in fc.nodes && Consistent(p, PREMINE, l, fc)
            && Reported(KnownParentVerdict(p, PREMINE, l, fc, ROOT, 0)) == Some(ReorgRequired)
  {
    hide Tree, AllReplay, AllPassed, Branch, Replay, BlockNumber, KnownParentVerdict, HeaderRefusal, StateHolds;
    hide StateRefusal, Repeats;
    var p, l, fc := Example(), Ledger(map[], [ROOT]), RootOnly(Example(), ROOT);
    var b := On(ROOT, 1, 0, []);
    RootConsistent(map[]);
    RootConsistent(PREMINE);
    NothingToExecute(map[]);
    Apart(ROOT, b);
    AcceptOn(map[], l, fc, ROOT, l, b, PREMINE);
    assert [ROOT] + [b] == [ROOT, b];
    VerdictKinds(p, map[], Ledger(PREMINE, [ROOT, b]), Insert(p, fc, b).value, b, 0);
    VerdictKinds(p, PREMINE, Ledger(PREMINE, [ROOT]), fc, ROOT, 0);
  }

  lemma Apart(a: Block, b: Block)
    requires a != b
    ensures BlockNumber(a) != BlockNumber(b)
  {
    if BlockNumber(a) == BlockNumber(b) { BlockNumberInjective(a, b); }
  }

  const NEXT: Tx := TRANSFER.(nonce := 1)

  /** The pool after the first transfer, and after the second one 40 seconds later. */
  function OnePool(p: Protocol): (r: Pool)
  {
    map[p.txHash(TRANSFER) := Entry(TRANSFER, 0)]
  }

  function GapPool(p: Protocol): (r: Pool)
  {
    OnePool(p)[p.txHash(NEXT) := Entry(NEXT, 40)]
  }

  /** A transfer that continues the pending ones of its sender is admitted. */
  lemma OfferAdmits(l: Ledger, pool: Pool, pending: seq<Tx>, t: Tx, now: u64)
    requires WellKeyed(Example(), pool) && TxNumber(t) !in pool && |pool| < 10 && now <= 50 && t.fee == 1
    requires Pruned(CONFIG, pool, now) == pool && Total(pool, Example().txSize) < 10 && t.timestamp == 0
    requires t.from in l.accounts && pending == SortBy(PendingFrom(pool, t.from, None), NonceOrder)
    requires t.nonce == SatAdd64(l.accounts[t.from].nonce, |pending|) && Spend(pending) + t.amount + t.fee <= 10
    requires FundedChain(pool, l.accounts[t.from], t.from, 10, pending)
    requires forall h :: h in pool && pool[h].tx.from == t.from ==> pool[h].tx.nonce != t.nonce
    ensures AfterOffer(Example(), CONFIG, l, pool, t, now) == pool[TxNumber(t) := Entry(t, now)]
  {
    hide TxNumber, Slot, FundedChain, Spend, Total, Pruned, SortBy, PendingFrom;
    AdmissionExactly(Example(), CONFIG, pool, Total(pool, Example().txSize), l, t, now, None);
    hide Admission;
  }

  lemma FirstOffer(l: Ledger)
    requires l.accounts == PREMINE
    ensures AfterOffer(Example(), CONFIG, l, map[], TRANSFER, 0) == OnePool(Example())
    ensures FundedChain(OnePool(Example()), PREMINE[7], 7, 10, [TRANSFER])
  {
    hide TxNumber, SortBy, PendingFrom, AfterOffer;
    var p := Example();
    var pending := SortBy(PendingFrom(map[], 7, None), NonceOrder);
    if pending != [] { PendingMembers(map[], 7, None, pending[0]); }
    assert FundedChain(map[], PREMINE[7], 7, 10, pending);
    OfferAdmits(l, map[], pending, TRANSFER, 0);
    var chain := ExtendChain(p, map[], PREMINE[7], 10, TRANSFER, 0, []);
    assert [] + [TRANSFER] == [TRANSFER];
  }

  lemma SameElements(s: seq<Tx>, t: Tx)
    requires s != [] && Distinct(s) && forall u :: u in s ==> u == t
    ensures s == [t]
  {
    assert s[0] in s && s[|s| - 1] in s;
  }

  lemma OnlyPending(p: Protocol)
    requires HashLaw(p)
    ensures SortBy(PendingFrom(OnePool(p), 7, None), NonceOrder) == [TRANSFER]
  {
    hide SortBy, PendingFrom;
    var pending := SortBy(PendingFrom(OnePool(p), 7, None), NonceOrder);
    PendingDistinct(p, OnePool(p), 7, None);
    forall t ensures t in pending <==> t == TRANSFER {
      PendingMembers(OnePool(p), 7, None, t);
      if t == TRANSFER { assert OnePool(p)[p.txHash(TRANSFER)].tx == t; }
    }
    assert TRANSFER in pending;
    SameElements(pending, TRANSFER);
  }

  lemma SecondOffer(l: Ledger)
    requires l.accounts == PREMINE
    ensures AfterOffer(Example(), CONFIG, l, OnePool(Example()), NEXT, 40) == GapPool(Example())
    ensures WellKeyed(Example(), GapPool(Example()))
    ensures FundedChain(GapPool(Example()), PREMINE[7], 7, 10, [TRANSFER, NEXT])
  {
    hide TxNumber, SortBy, PendingFrom, AfterOffer, FundedChain;
    var p := Example();
    ExampleIsLawful();
    TxsApart();
    OnlyPending(p);
    FirstOffer(l);
    TotalInsert(map[], p.txSize, p.txHash(TRANSFER), Entry(TRANSFER, 0));
    assert map[][p.txHash(TRANSFER) := Entry(TRANSFER, 0)] == OnePool(p);
    SpendAppend([], TRANSFER);
    assert [] + [TRANSFER] == [TRANSFER] && [TRANSFER] + [NEXT] == [TRANSFER, NEXT];
    OfferAdmits(l, OnePool(p), [TRANSFER], NEXT, 40);
    var chain := ExtendChain(p, OnePool(p), PREMINE[7], 10, NEXT, 40, [TRANSFER]);
  }

  /** A prune can break a sender's chain: two transfers are admitted one after the other, and the
      lower nonce expires first. */
  lemma PruneLeavesGap()
    ensures var p, l := Example(), Ledger(PREMINE, [ROOT]);
            var funds := p.available(PREMINE[7], TipHeight(l));
            var pool := AfterOffer(p, CONFIG, l, AfterOffer(p, CONFIG, l, map[], TRANSFER, 0), NEXT, 40);
            && Consistent(p, PREMINE, l, RootOnly(p, ROOT))
            && FundedChain(pool, PREMINE[7], 7, funds, [TRANSFER, NEXT])
            && p.txHash(NEXT) in Pruned(CONFIG, pool, 60) && p.txHash(TRANSFER) !in Pruned(CONFIG, pool, 60)
            && forall rest: seq<Tx> :: !FundedChain(Pruned(CONFIG, pool, 60), PREMINE[7], 7, funds, rest)
  {
    hide TxNumber, FundedChain, HashLaw, Pruned, GapPool, OnePool, AfterOffer, Consistent;
    ExampleIsLawful();
    TxsApart();
    RootConsistent(PREMINE);
    FirstOffer(Ledger(PREMINE, [ROOT]));
    SecondOffer(Ledger(PREMINE, [ROOT]));
    GapAppears(Example());
  }

  lemma GapAppears(p: Protocol)
    requires HashLaw(p) && p.txHash(TRANSFER) != p.txHash(NEXT)
    requires WellKeyed(p, GapPool(p)) && FundedChain(GapPool(p), PREMINE[7], 7, 10, [TRANSFER, NEXT])
    ensures p.txHash(NEXT) in Pruned(CONFIG, GapPool(p), 60) && p.txHash(TRANSFER) !in Pruned(CONFIG, GapPool(p), 60)
    ensures forall rest: seq<Tx> :: !FundedChain(Pruned(CONFIG, GapPool(p), 60), PREMINE[7], 7, 10, rest)
  {
    hide FundedChain, HashLaw;
    PruneKeepsChain(p, CONFIG, GapPool(p), 60, PREMINE[7], 7, 10, [TRANSFER, NEXT]);
    assert Leaves(CONFIG, GapPool(p), 60, 7, p.txHash(TRANSFER))
      && Remains(CONFIG, GapPool(p), 60, 7, p.txHash(NEXT));
  }

  lemma TxsApart()
    ensures TxNumber(TRANSFER) != TxNumber(NEXT)
  {
    if TxNumber(TRANSFER) == TxNumber(NEXT) { TxNumberInjective(TRANSFER, NEXT); }
  }

  /** The blocks of a reorg: `side` is active until `top` makes the branch with the transfer best. */
  const SIDE: Block := On(ROOT, 1, 1, [])
  const PAID: Block := On(ROOT, 1, 0, [TRANSFER])
  const TOP: Block := On(PAID, 2, 0, [])
  const AFTER: Accounts := map[7 := Account(7, 1, 0), 8 := Account(8, 0, 0)]

  lemma AddSide() returns (fc1: ForkChoice)
    ensures var p := Example();
            && fc1 == AfterBlock(p, PREMINE, RootOnly(p, ROOT), SIDE, 0) && fc1.best == p.hash(SIDE)
            && fc1.nodes == map[p.hash(ROOT) := ROOT, p.hash(SIDE) := SIDE]
            && Consistent(p, PREMINE, Ledger(PREMINE, [ROOT, SIDE]), fc1)
            && Branch(p, fc1.nodes, p.hash(ROOT)) == [ROOT]
  {
    hide Tree, AllReplay, Branch, Replay, BlockNumber, BranchVerdict, ExecuteTxs;
    var p, fc0, l0 := Example(), RootOnly(Example(), ROOT), Ledger(PREMINE, [ROOT]);
    RootConsistent(PREMINE);
    Apart(ROOT, SIDE);
    NothingToExecute(PREMINE);
    AcceptOn(PREMINE, l0, fc0, ROOT, l0, SIDE, PREMINE);
    fc1 := Insert(p, fc0, SIDE).value;
    assert [ROOT] + [SIDE] == [ROOT, SIDE];
  }

  lemma AddPaid() returns (fc1: ForkChoice, fc2: ForkChoice)
    ensures var p := Example();
            && fc1 == AfterBlock(p, PREMINE, RootOnly(p, ROOT), SIDE, 0)
            && fc2 == AfterBlock(p, PREMINE, fc1, PAID, 0) && fc2.best == p.hash(SIDE)
            && fc2.nodes == map[p.hash(ROOT) := ROOT, p.hash(SIDE) := SIDE, p.hash(PAID) := PAID]
            && Consistent(p, PREMINE, Ledger(PREMINE, [ROOT, SIDE]), fc2)
            && Branch(p, fc2.nodes, p.hash(PAID)) == [ROOT, PAID]
            && Replay(p, PREMINE, [ROOT, PAID]) == Ok(Ledger(AFTER, [ROOT, PAID]))
  {
    hide Tree, AllReplay, Branch, BlockNumber, BranchVerdict, ExecuteTxs, Consistent;
    var p, l0 := Example(), Ledger(PREMINE, [ROOT]);
    fc1 := AddSide();
    Apart(ROOT, PAID);
    Apart(SIDE, PAID);
    TransferExecutes();
    AcceptOn(PREMINE, Ledger(PREMINE, [ROOT, SIDE]), fc1, ROOT, l0, PAID, AFTER);
    fc2 := Insert(p, fc1, PAID).value;
    assert [ROOT] + [PAID] == [ROOT, PAID];
  }

  /** After the reorg the ledger is that of the winning branch. */
  lemma AddTop() returns (fc2: ForkChoice, fc3: ForkChoice)
    ensures var p := Example();
            && fc2 == AfterBlock(p, PREMINE, AfterBlock(p, PREMINE, RootOnly(p, ROOT), SIDE, 0), PAID, 0)
            && Consistent(p, PREMINE, Ledger(PREMINE, [ROOT, SIDE]), fc2)
            && fc3 == AfterBlock(p, PREMINE, fc2, TOP, 0) && fc3.best == p.hash(TOP)
            && Consistent(p, PREMINE, Ledger(AFTER, [ROOT, PAID, TOP]), fc3)
  {
    hide Tree, AllReplay, Branch, Replay, BlockNumber, BranchVerdict, ExecuteTxs, Consistent, AfterBlock;
    var p := Example();
    var fc1;
    fc1, fc2 := AddPaid();
    Apart(ROOT, TOP);
    Apart(SIDE, TOP);
    Apart(PAID, TOP);
    NothingToExecute(AFTER);
    AcceptOn(PREMINE, Ledger(PREMINE, [ROOT, SIDE]), fc2, PAID, Ledger(AFTER, [ROOT, PAID]), TOP, AFTER);
    fc3 := Insert(p, fc2, TOP).value;
    assert [ROOT, PAID] + [TOP] == [ROOT, PAID, TOP];
  }

  lemma TransferExecutes()
    ensures ExecuteTxs(PREMINE, [TRANSFER]) == Ok(AFTER)
  {
    var txs := [TRANSFER];
    assert txs[..|txs| - 1] == [];
    NothingToExecute(PREMINE);
    assert ExecuteTxs(PREMINE, txs) == ExecuteTx(PREMINE, TRANSFER);
    assert ExecuteTx(PREMINE, TRANSFER).value == AFTER;
  }

  lemma NothingAbandoned(p: Protocol, winning: set<Hash>)
    requires p.hash(ROOT) in winning
    ensures AbandonedTxs(p, [ROOT, SIDE], winning) == []
  {
    var both, root := [ROOT, SIDE], [ROOT];
    assert root[..|root| - 1] == [] && both[..|both| - 1] == root;
    assert AbandonedTxs(p, root, winning) == [];
    assert both[|both| - 1].txs == [];
  }

  lemma RootWins(fc: ForkChoice)
    requires Consistent(Example(), PREMINE, Ledger(AFTER, [ROOT, PAID, TOP]), fc)
    ensures BlockNumber(ROOT) in AncestorHashes(Example(), fc.nodes, fc.best)
  {
    hide BlockNumber, AllReplay;
    ConsistentTip(Example(), PREMINE, Ledger(AFTER, [ROOT, PAID, TOP]), fc);
    AncestorsReverseBranch(Example(), fc.nodes, fc.best);
    assert AncestorHashes(Example(), fc.nodes, fc.best)[2] == BlockNumber(ROOT);
  }

  /** A reorg leaves a pool entry in place that the winning branch confirms: the transfer is
      admitted while `SIDE` is active, and then `TOP` makes the branch with the transfer best. */
  lemma ReorgLeavesConfirmed() returns (before: ForkChoice, after: ForkChoice)
    ensures var p, l0, l := Example(), Ledger(PREMINE, [ROOT, SIDE]), Ledger(AFTER, [ROOT, PAID, TOP]);
            var pool := AfterOffer(p, CONFIG, l0, map[], TRANSFER, 0);
            && before == AfterBlock(p, PREMINE, AfterBlock(p, PREMINE, RootOnly(p, ROOT), SIDE, 0), PAID, 0)
            && Consistent(p, PREMINE, l0, before)
            && after == AfterBlock(p, PREMINE, before, TOP, 0) && Consistent(p, PREMINE, l, after)
            && p.txHash(TRANSFER) in pool && Confirms(p, l.blocks[1], p.txHash(TRANSFER))
            && var winning := set h | h in AncestorHashes(p, after.nodes, after.best);
               Readmitted(p, CONFIG, l, l0.blocks, winning, pool, pool, 0)
  {
    hide Consistent, BlockNumber, TxNumber, AfterBlock, AfterOffer, AncestorHashes;
    var p := Example();
    before, after := AddTop();
    ConsistentIsTree(p, PREMINE, Ledger(AFTER, [ROOT, PAID, TOP]), after);
    RootWins(after);
    FirstOffer(Ledger(PREMINE, [ROOT, SIDE]));
    NothingAbandoned(p, set h | h in AncestorHashes(p, after.nodes, after.best));
    assert PAID.txs[0] == TRANSFER;
  }

  lemma ConsistentIsTree(p: Protocol, ga: Accounts, l: Ledger, fc: ForkChoice)
    requires Consistent(p, ga, l, fc)
    ensures Tree(p, fc.nodes)
  {
  }
}
