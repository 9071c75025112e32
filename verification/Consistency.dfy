/** What ties the active ledger to the block tree, and how one accepted block keeps it. */
module Consistency {
  import opened Types
  import opened Protocols
  import opened ForkTree
  import opened Replays
  import opened Caches
  import opened TxIndex
  import opened Storages

  /** Every branch of the tree can be executed from the genesis accounts. */
  ghost predicate AllReplay(p: Protocol, ga: Accounts, nodes: map<Hash, Block>)
    requires Tree(p, nodes)
  {
    forall h {:trigger Branch(p, nodes, h)} :: h in nodes ==> Replay(p, ga, Branch(p, nodes, h)).Ok?
  }

  /** The root's own transactions are already reflected in the genesis accounts. */
  ghost predicate RootExecuted(ga: Accounts, root: Block)
  {
    && root.prev == ZERO_HASH
    && (forall t :: t in root.txs ==> t.from in ga && t.nonce < ga[t.from].nonce)
    && (forall i, j :: 0 <= i < j < |root.txs| && root.txs[i].from == root.txs[j].from ==>
          root.txs[i].nonce < root.txs[j].nonce)
  }

  /** At some clock reading the block met everything that its own branch demands. */
  ghost predicate PassedAt(p: Protocol, ga: Accounts, nodes: map<Hash, Block>, h: Hash)
    requires Tree(p, nodes) && h in nodes
  {
    nodes[h].prev in nodes && exists t: u64 :: Passes(p, ga, Branch(p, nodes, nodes[h].prev), nodes[h], t)
  }

  ghost predicate AllPassed(p: Protocol, ga: Accounts, nodes: map<Hash, Block>)
    requires Tree(p, nodes)
  {
    forall h {:trigger PassedAt(p, ga, nodes, h)} :: h in nodes && nodes[h].height > 0 ==> PassedAt(p, ga, nodes, h)
  }

  ghost predicate Grown(p: Protocol, ga: Accounts, nodes: map<Hash, Block>)
  {
    && Tree(p, nodes)
    && AllReplay(p, ga, nodes) && AllPassed(p, ga, nodes)
    && (forall h :: h in nodes ==> Fits(nodes[h]))
    && (forall h :: h in nodes && nodes[h].height == 0 ==> RootExecuted(ga, nodes[h]))
    && Keyed(ga)
  }

  /** The active ledger is the replay of the best tip's branch, whatever led there. */
  ghost predicate Consistent(p: Protocol, ga: Accounts, l: Ledger, fc: ForkChoice)
  {
    && Grown(p, ga, fc.nodes)
    && fc.best in fc.nodes
    && Replay(p, ga, Branch(p, fc.nodes, fc.best)) == Ok(l)
  }

  /** A branch is a hash-linked chain with a zero root. */
  lemma BranchChained(p: Protocol, ga: Accounts, nodes: map<Hash, Block>, h: Hash)
    requires Grown(p, ga, nodes) && h in nodes
    ensures Chained(p, Branch(p, nodes, h)) && Heighted(Branch(p, nodes, h))
    ensures forall i :: 0 <= i < |Branch(p, nodes, h)| ==> Fits(Branch(p, nodes, h)[i])
  {
    var br := Branch(p, nodes, h);
    forall i | 0 <= i < |br| ensures br[i].height == i && Fits(br[i]) && (i == 0 ==> br[i].prev == ZERO_HASH)
                                     && (i > 0 ==> br[i].prev == p.hash(br[i - 1]))
    {
      BranchElements(p, nodes, h, i);
      var k := p.hash(br[i]);
      assert Linked(p, nodes, k);
      if i > 0 {
        BranchElements(p, nodes, h, i - 1);
        assert Branch(p, nodes, k) == Branch(p, nodes, nodes[k].prev) + [nodes[k]];
        assert Branch(p, nodes, k)[i - 1] == br[i - 1];
        assert Linked(p, nodes, nodes[k].prev);
      }
    }
  }

  lemma {:induction false} ReplayKeyed(p: Protocol, ga: Accounts, br: seq<Block>)
    requires TransitionLaw(p) && Keyed(ga) && |br| > 0 && Replay(p, ga, br).Ok?
    ensures Keyed(Replay(p, ga, br).value.accounts)
  {
    if |br| > 1 { ReplayKeyed(p, ga, br[..|br| - 1]); }
  }

  lemma InsertKeepsReplay(p: Protocol, ga: Accounts, nodes: map<Hash, Block>, larger: map<Hash, Block>, b: Block,
                          h: Hash)
    requires Tree(p, nodes) && AllReplay(p, ga, nodes) && Tree(p, larger) && larger == nodes[p.hash(b) := b]
    requires p.hash(b) !in nodes
    requires Replay(p, ga, Branch(p, larger, p.hash(b))).Ok? && h in larger
    ensures Replay(p, ga, Branch(p, larger, h)).Ok?
    ensures h in nodes ==> Branch(p, larger, h) == Branch(p, nodes, h)
  {
    if h in nodes { BranchStable(p, nodes, larger, h); }
  }

  lemma InsertKeepsPassed(p: Protocol, ga: Accounts, nodes: map<Hash, Block>, larger: map<Hash, Block>, b: Block,
                          now: u64, h: Hash)
    requires Tree(p, nodes) && AllPassed(p, ga, nodes) && Tree(p, larger) && larger == nodes[p.hash(b) := b]
    requires p.hash(b) !in nodes && b.prev in nodes && Passes(p, ga, Branch(p, nodes, b.prev), b, now)
    requires h in larger && larger[h].height > 0
    ensures PassedAt(p, ga, larger, h)
  {
    hide Passes, Branch;
    if h in nodes {
      assert PassedAt(p, ga, nodes, h);
      BranchStable(p, nodes, larger, nodes[h].prev);
    } else {
      BranchStable(p, nodes, larger, b.prev);
    }
  }

  /** Accepting a block on a known branch keeps the tree executable. */
  lemma InsertKeepsGrown(p: Protocol, ga: Accounts, nodes: map<Hash, Block>, b: Block, now: u64)
    requires Grown(p, ga, nodes) && p.hash(b) !in nodes && Fits(b)
    requires b.height > 0 && b.prev in nodes && nodes[b.prev].height + 1 == b.height
    requires Replay(p, ga, Branch(p, nodes, b.prev) + [b]).Ok? && Passes(p, ga, Branch(p, nodes, b.prev), b, now)
    ensures Grown(p, ga, nodes[p.hash(b) := b])
    ensures Branch(p, nodes[p.hash(b) := b], p.hash(b)) == Branch(p, nodes, b.prev) + [b]
    ensures forall h :: h in nodes ==> Branch(p, nodes[p.hash(b) := b], h) == Branch(p, nodes, h)
  {
    hide Tree, Branch, Replay, Fits, RootExecuted, Keyed, Passes;
    var larger := nodes[p.hash(b) := b];
    InsertKeepsTree(p, nodes, b);
    forall h | h in larger
      ensures Replay(p, ga, Branch(p, larger, h)).Ok?
      ensures h in nodes ==> Branch(p, larger, h) == Branch(p, nodes, h)
    {
      InsertKeepsReplay(p, ga, nodes, larger, b, h);
    }
    assert AllReplay(p, ga, larger);
    forall h | h in larger && larger[h].height > 0 ensures PassedAt(p, ga, larger, h) {
      InsertKeepsPassed(p, ga, nodes, larger, b, now, h);
    }
  }

  /** A block that passes extends its branch by one executable step. */
  lemma VerdictReplays(p: Protocol, ga: Accounts, br: seq<Block>, b: Block, now: u64)
    requires ConsensusLaw(p) && |br| > 0 && Passes(p, ga, br, b, now)
    ensures Replay(p, ga, br).Ok? && Replay(p, ga, br + [b]) == Apply(p, Replay(p, ga, br).value, b)
    ensures Replay(p, ga, br + [b]).Ok?
    ensures b.height == br[|br| - 1].height + 1 && Fits(b)
  {
    ReplayStep(p, ga, br, b);
  }

  /** One accepted block: the tree stays executable, the old ledger stays right if the tip did
      not move, and if it did the new branch executes to the block applied on its parent. */
  lemma AcceptKeepsConsistent(p: Protocol, ga: Accounts, l: Ledger, fc: ForkChoice, b: Block, now: u64)
    requires ConsensusLaw(p) && Consistent(p, ga, l, fc)
    requires p.hash(b) !in fc.nodes && b.height > 0 && b.prev in fc.nodes
    requires Passes(p, ga, Branch(p, fc.nodes, b.prev), b, now)
    ensures Insert(p, fc, b).Ok?
    ensures var after := Insert(p, fc, b).value;
            && Grown(p, ga, after.nodes) && after.best in after.nodes && after.nodes == fc.nodes[p.hash(b) := b]
            && (after.best == fc.best || after.best == p.hash(b))
            && (after.best != p.hash(b) ==> Consistent(p, ga, l, after))
            && Branch(p, after.nodes, p.hash(b)) == Branch(p, fc.nodes, b.prev) + [b]
            && (forall h :: h in fc.nodes ==> Branch(p, after.nodes, h) == Branch(p, fc.nodes, h))
    ensures Replay(p, ga, Branch(p, fc.nodes, b.prev) + [b])
            == Apply(p, Replay(p, ga, Branch(p, fc.nodes, b.prev)).value, b)
    ensures Replay(p, ga, Branch(p, fc.nodes, b.prev) + [b]).Ok?
  {
    VerdictReplays(p, ga, Branch(p, fc.nodes, b.prev), b, now);
    InsertKeepsGrown(p, ga, fc.nodes, b, now);
  }

  /** The active chain is the best tip's branch. */
  lemma ConsistentTip(p: Protocol, ga: Accounts, l: Ledger, fc: ForkChoice)
    requires Consistent(p, ga, l, fc)
    ensures l.blocks == Branch(p, fc.nodes, fc.best) && |l.blocks| > 0
    ensures l.blocks[|l.blocks| - 1] == fc.nodes[fc.best] && p.hash(fc.nodes[fc.best]) == fc.best
    ensures fc.nodes[fc.best].height == |l.blocks| - 1
  {
    assert Linked(p, fc.nodes, fc.best);
  }

  /** The first error the node reports for a block, with the tree and ledger it has. */
  ghost function KnownParentVerdict(p: Protocol, ga: Accounts, l: Ledger, fc: ForkChoice, b: Block,
                                    now: u64): (r: Option<NodeError>)
    requires Consistent(p, ga, l, fc)
  {
    if b.height == 0 then
      match p.checkGenesis(b, now)
      case Some(e) => Some(ConsensusFailure(e))
      case None => Some(if ga == map[] then MissingGenesisState else ReorgRequired)
    else if b.prev !in fc.nodes then Some(ForkChoiceFailure(MissingParent))
    else
      var br := Branch(p, fc.nodes, b.prev);
      if HeaderVerdict(p, br, b, now).Some? then HeaderVerdict(p, br, b, now)
      else if b.prev != fc.best && ga == map[] then Some(MissingGenesisState)
      else if BranchVerdict(p, ga, br, b, now).Some? then BranchVerdict(p, ga, br, b, now)
      else if p.hash(b) in fc.nodes then Some(ForkChoiceFailure(DuplicateBlock))
      else None
  }

  /** A new block on a known parent that meets everything its own branch demands, and sits on the best
      tip if there are no genesis accounts to replay other branches from. */
  ghost predicate Acceptable(p: Protocol, ga: Accounts, fc: ForkChoice, b: Block, now: u64)
    requires Tree(p, fc.nodes)
  {
    && b.height > 0 && b.prev in fc.nodes && p.hash(b) !in fc.nodes && (ga != map[] || b.prev == fc.best)
    && Passes(p, ga, Branch(p, fc.nodes, b.prev), b, now)
  }

  /** Acceptance depends on nothing but the block's own branch, except that a node without
      genesis accounts can only follow its active tip. */
  lemma AcceptedExactly(p: Protocol, ga: Accounts, l: Ledger, fc: ForkChoice, b: Block, now: u64)
    requires Consistent(p, ga, l, fc)
    ensures KnownParentVerdict(p, ga, l, fc, b, now).None? <==> Acceptable(p, ga, fc, b, now)
  {
  }

  /** A known block that still meets everything its own branch demands. */
  ghost predicate Repeats(p: Protocol, ga: Accounts, fc: ForkChoice, b: Block, now: u64)
    requires Tree(p, fc.nodes)
  {
    && b.height > 0 && b.prev in fc.nodes && p.hash(b) in fc.nodes && (ga != map[] || b.prev == fc.best)
    && Passes(p, ga, Branch(p, fc.nodes, b.prev), b, now)
  }

  /** What every verdict means, in the order of the checks: genesis blocks, unknown parents, the
      header, side blocks without genesis accounts, the state, repeats. */
  lemma VerdictKinds(p: Protocol, ga: Accounts, l: Ledger, fc: ForkChoice, b: Block, now: u64)
    requires Consistent(p, ga, l, fc)
    ensures var verdict := KnownParentVerdict(p, ga, l, fc, b, now);
            && (verdict.None? <==> Acceptable(p, ga, fc, b, now))
            && (verdict == Some(ForkChoiceFailure(MissingParent)) <==> b.height > 0 && b.prev !in fc.nodes)
            && (verdict == Some(ForkChoiceFailure(DuplicateBlock)) <==> Repeats(p, ga, fc, b, now))
            && (b.height == 0 ==>
                  var genesis := p.checkGenesis(b, now);
                  verdict == Some(if genesis.Some? then ConsensusFailure(genesis.value)
                                  else if ga == map[] then MissingGenesisState else ReorgRequired))
    ensures b.height > 0 && b.prev in fc.nodes ==>
              var verdict, br := KnownParentVerdict(p, ga, l, fc, b, now), Branch(p, fc.nodes, b.prev);
              if !HeaderHolds(p, br, b, now) then
                HeaderRefusal(p, BranchDifficulty(p, br), fc.nodes[b.prev], b, now, verdict)
              else if ga == map[] && b.prev != fc.best then verdict == Some(MissingGenesisState)
              else Replay(p, ga, br).Ok? && (!StateHolds(p, Replay(p, ga, br).value, b) ==>
                                               StateRefusal(p, Replay(p, ga, br).value, b, verdict))
  {
    hide AllReplay, Replay, AllPassed, Apply;
    if b.prev in fc.nodes { BranchReplays(p, ga, fc.nodes, b.prev); }
  }

  lemma BranchReplays(p: Protocol, ga: Accounts, nodes: map<Hash, Block>, h: Hash)
    requires Grown(p, ga, nodes) && h in nodes
    ensures Replay(p, ga, Branch(p, nodes, h)).Ok?
    ensures Branch(p, nodes, h)[|Branch(p, nodes, h)| - 1] == nodes[h]
  {
  }

  lemma PassesLater(p: Protocol, ga: Accounts, br: seq<Block>, b: Block, now: u64, later: u64)
    requires ConsensusLaw(p) && |br| > 0 && Passes(p, ga, br, b, now) && now <= later
    ensures Passes(p, ga, br, b, later)
  {
  }

  /** From some time on, a known block is never reported as an error again. */
  lemma RepeatStaysSilent(p: Protocol, ga: Accounts, l: Ledger, fc: ForkChoice, b: Block) returns (t: u64)
    requires HashLaw(p) && ConsensusLaw(p) && Consistent(p, ga, l, fc) && ga != map[]
    requires p.hash(b) in fc.nodes && b.height > 0
    ensures forall now: u64 :: t <= now ==> Repeats(p, ga, fc, b, now)
  {
    hide Tree, AllReplay, Replay, Passes, ConsensusLaw, Branch;
    TreeDigest(p, fc.nodes, p.hash(b));
    assert PassedAt(p, ga, fc.nodes, p.hash(b));
    t :| Passes(p, ga, Branch(p, fc.nodes, b.prev), b, t);
    forall now: u64 | t <= now ensures Passes(p, ga, Branch(p, fc.nodes, b.prev), b, now) {
      PassesLater(p, ga, Branch(p, fc.nodes, b.prev), b, t, now);
    }
  }

  /** Every block of the tree above the root carries the difficulty its parent's branch demands, and
      the state root that executing it on the ledger of that branch gives. */
  lemma BlockPassed(p: Protocol, ga: Accounts, nodes: map<Hash, Block>, h: Hash)
    requires Grown(p, ga, nodes) && h in nodes && nodes[h].height > 0
    ensures nodes[h].prev in nodes
    ensures var b, br := nodes[h], Branch(p, nodes, nodes[h].prev);
            && (p.startDifficulty != 0 ==> BranchDifficulty(p, br) == Ok(b.difficulty))
            && p.checkpoint(b.height, p.hash(b)) && (exists t: u64 :: p.checkNext(b, nodes[b.prev], t).None?)
            && Replay(p, ga, br).Ok? && p.stateRootAfter(Replay(p, ga, br).value, b) == Ok(b.stateRoot)
            && b.stateRoot != ZERO_HASH
  {
    hide AllReplay, Replay, Apply, BranchDifficulty;
    assert PassedAt(p, ga, nodes, h);
    BranchReplays(p, ga, nodes, nodes[h].prev);
    var t: u64 :| Passes(p, ga, Branch(p, nodes, nodes[h].prev), nodes[h], t);
    assert p.checkNext(nodes[h], nodes[nodes[h].prev], t).None?;
  }

  /** Every block of the active chain above genesis met, at some clock reading, everything that the
      chain below it demands: so it carries the demanded difficulty, and the state root that
      executing it on the ledger of the chain below gives. */
  lemma ChainPassed(p: Protocol, ga: Accounts, l: Ledger, fc: ForkChoice, i: nat) returns (t: u64)
    requires Consistent(p, ga, l, fc) && 0 < i < |l.blocks|
    ensures Passes(p, ga, l.blocks[..i], l.blocks[i], t)
    ensures p.startDifficulty != 0 ==> BranchDifficulty(p, l.blocks[..i]) == Ok(l.blocks[i].difficulty)
    ensures Replay(p, ga, l.blocks[..i]).Ok?
    ensures p.stateRootAfter(Replay(p, ga, l.blocks[..i]).value, l.blocks[i]) == Ok(l.blocks[i].stateRoot)
    ensures l.blocks[i].stateRoot != ZERO_HASH
  {
    hide AllReplay, Replay, Branch, Apply, BranchDifficulty;
    ConsistentTip(p, ga, l, fc);
    BranchElements(p, fc.nodes, fc.best, i);
    BranchElements(p, fc.nodes, fc.best, i - 1);
    var h := p.hash(l.blocks[i]);
    assert PassedAt(p, ga, fc.nodes, h);
    BranchStep(p, fc.nodes, h);
    assert Branch(p, fc.nodes, fc.nodes[h].prev) == l.blocks[..i];
    t :| Passes(p, ga, Branch(p, fc.nodes, fc.nodes[h].prev), fc.nodes[h], t);
  }

  /** The tree after a block was offered, with only its own parent taken into account. */
  ghost function AfterBlock(p: Protocol, ga: Accounts, fc: ForkChoice, b: Block, now: u64): (r: ForkChoice)
  {
    if Tree(p, fc.nodes) && Acceptable(p, ga, fc, b, now) then Insert(p, fc, b).value else fc
  }

  /** Of two acceptable blocks the second stays acceptable exactly if the first left the best tip
      alone or there are genesis accounts to replay from. */
  lemma SecondStays(p: Protocol, ga: Accounts, l: Ledger, fc: ForkChoice, b: Block, c: Block, now: u64)
    requires HashLaw(p) && ConsensusLaw(p) && Consistent(p, ga, l, fc) && b != c
    requires Acceptable(p, ga, fc, b, now) && Acceptable(p, ga, fc, c, now)
    ensures var after := AfterBlock(p, ga, fc, b, now);
            && Tree(p, after.nodes) && after.nodes == fc.nodes[p.hash(b) := b]
            && (Acceptable(p, ga, after, c, now) <==> ga != map[] || after.best == fc.best)
  {
    hide Tree, AllReplay, Replay, Branch, BranchVerdict, ConsensusLaw;
    AcceptKeepsConsistent(p, ga, l, fc, b, now);
  }

  /** Two acceptable blocks end in the same tree in both orders exactly if there are genesis
      accounts, or neither becomes the best tip when it comes first. */
  lemma FirstComeOnly(p: Protocol, ga: Accounts, l: Ledger, fc: ForkChoice, b: Block, c: Block, now: u64)
    requires HashLaw(p) && ConsensusLaw(p) && Consistent(p, ga, l, fc) && b != c
    requires Acceptable(p, ga, fc, b, now) && Acceptable(p, ga, fc, c, now)
    ensures var fcB, fcC := AfterBlock(p, ga, fc, b, now), AfterBlock(p, ga, fc, c, now);
            AfterBlock(p, ga, fcB, c, now).nodes == AfterBlock(p, ga, fcC, b, now).nodes
            <==> ga != map[] || (fcB.best == fc.best && fcC.best == fc.best)
  {
    hide Tree, AllReplay, Replay, Branch, BranchVerdict, ConsensusLaw, Consistent;
    SecondStays(p, ga, l, fc, b, c, now);
    SecondStays(p, ga, l, fc, c, b, now);
    var both := fc.nodes[p.hash(b) := b][p.hash(c) := c];
    assert both == fc.nodes[p.hash(c) := c][p.hash(b) := b];
    assert p.hash(b) != p.hash(c) && p.hash(b) in both && p.hash(c) in both;
    assert p.hash(b) in fc.nodes[p.hash(b) := b] && p.hash(c) !in fc.nodes[p.hash(b) := b];
    assert p.hash(c) in fc.nodes[p.hash(c) := c] && p.hash(b) !in fc.nodes[p.hash(c) := c];
  }

  /** The late block of the two is refused for want of genesis accounts. */
  lemma LateSiblingRefused(p: Protocol, l: Ledger, fc: ForkChoice, b: Block, c: Block, now: u64)
    requires HashLaw(p) && ConsensusLaw(p) && Consistent(p, map[], l, fc) && b != c
    requires KnownParentVerdict(p, map[], l, fc, b, now).None? && KnownParentVerdict(p, map[], l, fc, c, now).None?
    requires Insert(p, fc, b).Ok? && Insert(p, fc, b).value.best == p.hash(b)
    ensures Apply(p, l, b).Ok?
    ensures var l1, fc1 := Apply(p, l, b).value, Insert(p, fc, b).value;
            Consistent(p, map[], l1, fc1) && KnownParentVerdict(p, map[], l1, fc1, c, now) == Some(MissingGenesisState)
  {
    hide Tree, AllReplay, Replay, Branch, BranchVerdict, ConsensusLaw;
    AcceptedExactly(p, map[], l, fc, b, now);
    AcceptedExactly(p, map[], l, fc, c, now);
    AcceptKeepsConsistent(p, map[], l, fc, b, now);
    BranchVerdictHeader(p, map[], Branch(p, fc.nodes, c.prev), c, now);
  }

  lemma BranchVerdictHeader(p: Protocol, ga: Accounts, br: seq<Block>, b: Block, now: u64)
    requires |br| > 0 && Passes(p, ga, br, b, now)
    ensures HeaderVerdict(p, br, b, now).None?
  {
  }

  // ----- Confirmed transactions -----

  /** Every confirmed transaction lies below its sender's account nonce. */
  ghost predicate ConfirmedBelow(l: Ledger)
  {
    forall i, t :: 0 <= i < |l.blocks| && t in l.blocks[i].txs ==>
        t.from in l.accounts && t.nonce < l.accounts[t.from].nonce
  }

  lemma {:induction false} ReplayConfirms(p: Protocol, ga: Accounts, br: seq<Block>)
    requires TransitionLaw(p) && |br| > 0 && RootExecuted(ga, br[0]) && Replay(p, ga, br).Ok?
    ensures ConfirmedBelow(Replay(p, ga, br).value)
  {
    if |br| > 1 {
      var n := |br| - 1;
      ReplayConfirms(p, ga, br[..n]);
      var before, after := Replay(p, ga, br[..n]).value, Replay(p, ga, br).value;
      assert TransitionStep(before.accounts, br[n], after.accounts);
      forall i, t | 0 <= i < |br| && t in br[i].txs
        ensures t.from in after.accounts && t.nonce < after.accounts[t.from].nonce
      {
        if i < n { assert before.blocks[i] == br[i]; }
      }
    }
  }

  /** No digest is confirmed in two blocks of an executable branch. */
  lemma {:induction false} ConfirmedOnce(p: Protocol, ga: Accounts, br: seq<Block>, h: Hash)
    requires TransitionLaw(p) && HashLaw(p) && |br| > 0 && RootExecuted(ga, br[0]) && Replay(p, ga, br).Ok?
    ensures forall i, j :: 0 <= i < j < |br| ==> !(Confirms(p, br[i], h) && Confirms(p, br[j], h))
  {
    if |br| > 1 {
      var n := |br| - 1;
      ConfirmedOnce(p, ga, br[..n], h);
      ReplayConfirms(p, ga, br[..n]);
      var before, after := Replay(p, ga, br[..n]).value, Replay(p, ga, br).value;
      assert TransitionStep(before.accounts, br[n], after.accounts);
      forall i | 0 <= i < n ensures !(Confirms(p, br[i], h) && Confirms(p, br[n], h)) {
        assert before.blocks[i] == br[i];
      }
      assert forall i :: 0 <= i < n ==> br[..n][i] == br[i];
    }
  }

  // ----- Disk -----

  /** Saving the best branch completes the digest table. */
  lemma SavedBranchCompletesTable(p: Protocol, nodes: map<Hash, Block>, best: Hash)
    requires HashLaw(p) && Tree(p, nodes) && best in nodes
    ensures (nodes - {best}) + ByHash(p, Branch(p, nodes, best)) == nodes
    ensures nodes + ByHash(p, Branch(p, nodes, best)) == nodes
  {
    hide Tree, Branch, HashLaw, ByHash;
    var br := Branch(p, nodes, best);
    var table := ByHash(p, br);
    ByHashElements(p, br);
    TreeDigest(p, nodes, best);
    assert nodes[best] in br;
    forall h | h in table ensures h in nodes && nodes[h] == table[h] {
      var i :| 0 <= i < |br| && br[i] == table[h];
      BranchElements(p, nodes, best, i);
    }
  }

  /** The ledger of a branch has that branch as its chain, hash-linked and with its accounts well keyed. */
  lemma ReplayFacts(p: Protocol, ga: Accounts, nodes: map<Hash, Block>, h: Hash, l: Ledger)
    requires TransitionLaw(p) && Grown(p, ga, nodes) && h in nodes && Replay(p, ga, Branch(p, nodes, h)) == Ok(l)
    ensures l.blocks == Branch(p, nodes, h) && Keyed(l.accounts) && Chained(p, l.blocks) && Heighted(l.blocks)
    ensures forall i :: 0 <= i < |l.blocks| ==> Fits(l.blocks[i])
    ensures |l.blocks| == 1 ==> l.accounts == ga
  {
    ReplayKeyed(p, ga, Branch(p, nodes, h));
    BranchChained(p, ga, nodes, h);
  }
}
