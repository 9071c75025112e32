/** Catching up with a peer's chain: where its blocks are in the local tree and orphan pool, and
    how one delivered block of the chain moves that. */
module Backfill {
  import opened Types
  import opened Protocols
  import opened ForkTree
  import opened Replays
  import opened TxIndex
  import opened Consistency
  import opened Orphanage
  import opened Drain
  import opened Delivery
  import opened Gaps

  /** Block `i` passes every check on the blocks below it. */
  ghost predicate ValidAt(p: Protocol, ga: Accounts, chain: seq<Block>, i: nat, now: u64)
    requires 0 < i < |chain|
  {
    Passes(p, ga, chain[..i], chain[i], now)
  }

  ghost predicate LinkedChain(p: Protocol, chain: seq<Block>)
  {
    && |chain| > 0 && Heighted(chain)
    && (forall i :: 0 < i < |chain| ==> chain[i].prev == p.hash(chain[i - 1]))
  }

  /** A chain whose every block is valid at a clock reading. */
  ghost predicate ValidChain(p: Protocol, ga: Accounts, chain: seq<Block>, now: u64)
  {
    LinkedChain(p, chain) && forall i :: 0 < i < |chain| ==> ValidAt(p, ga, chain, i, now)
  }

  /** A valid chain stays valid as the clock advances. */
  lemma ValidLater(p: Protocol, ga: Accounts, chain: seq<Block>, now: u64, later: u64)
    requires ConsensusLaw(p) && ValidChain(p, ga, chain, now) && now <= later
    ensures ValidChain(p, ga, chain, later)
  {
    forall i | 0 < i < |chain| ensures ValidAt(p, ga, chain, i, later) {
      assert ValidAt(p, ga, chain, i, now);
    }
  }

  ghost predicate InTree(p: Protocol, nodes: map<Hash, Block>, chain: seq<Block>, i: nat)
    requires i < |chain|
  {
    p.hash(chain[i]) in nodes
  }

  /** A chain block in the tree has the chain below it as its branch. */
  lemma {:induction false} ChainBranch(p: Protocol, nodes: map<Hash, Block>, chain: seq<Block>, i: nat)
    requires HashLaw(p) && Tree(p, nodes) && LinkedChain(p, chain) && i < |chain| && InTree(p, nodes, chain, i)
    ensures Branch(p, nodes, p.hash(chain[i])) == chain[..i + 1]
    ensures forall k :: 0 <= k <= i ==> InTree(p, nodes, chain, k)
  {
    var h := p.hash(chain[i]);
    assert Linked(p, nodes, h);
    if i > 0 {
      ChainBranch(p, nodes, chain, i - 1);
      assert chain[..i + 1] == chain[..i] + [chain[i]];
    } else {
      assert chain[..1] == [chain[0]];
    }
  }

  // ----- Which blocks of the chain are known -----

  /** `b` is a known block of the chain above the front. */
  ghost predicate Slotted(chain: seq<Block>, known: set<nat>, f: nat, b: Block)
  {
    b.height in known && f < b.height < |chain| && chain[b.height] == b
  }

  /** Of the chain, the tree holds exactly the known blocks below the first gap, and the orphan pool
      consists of exactly the known blocks above it. */
  ghost predicate Placed(p: Protocol, chain: seq<Block>, nodes: map<Hash, Block>, orphans: Orphans, known: set<nat>)
  {
    var f := Front(known, |chain|);
    && 0 in known && (forall i :: i in known ==> i < |chain|)
    && (forall i :: 0 <= i < |chain| ==> (InTree(p, nodes, chain, i) <==> i < f))
    && (forall h :: h in orphans ==> Slotted(chain, known, f, orphans[h].block) && p.hash(orphans[h].block) == h)
    && (forall i {:trigger chain[i]} :: i in known && i > f ==> p.hash(chain[i]) in orphans)
  }

  lemma FrontPositive(p: Protocol, chain: seq<Block>, nodes: map<Hash, Block>, orphans: Orphans, known: set<nat>)
    requires Placed(p, chain, nodes, orphans, known)
    ensures 0 < Front(known, |chain|) <= |chain| && forall i :: i in known ==> i < |chain|
  {
    hide Front;
  }

  // ----- A delivery that leaves the tree alone -----

  lemma OrphansStay(p: Protocol, ga: Accounts, chain: seq<Block>, now: u64, nodes: map<Hash, Block>, orphans0: Orphans,
                    j: nat, orphans: Orphans, known: set<nat>)
    requires HashLaw(p) && Tree(p, nodes) && LinkedChain(p, chain) && 0 < j < |chain|
    requires Placed(p, chain, nodes, orphans0, known) && j != Front(known, |chain|)
    requires ParentsUnknown(nodes, orphans0) && ParentsUnknown(nodes, orphans)
    requires Delivered(p, ga, now, nodes, orphans0, chain[j], nodes, orphans, {})
    ensures var f := Front(known, |chain|);
            && (forall h :: h in orphans0 ==> h in orphans && orphans0[h].block == orphans[h].block)
            && (forall h :: h in orphans && h !in orphans0 ==>
                  j > f && h == p.hash(chain[j]) && orphans[h].block == chain[j])
            && (j > f ==> p.hash(chain[j]) in orphans)
  {
    hide Tree, Accepted, Front;
    var f := Front(known, |chain|);
    assert InTree(p, nodes, chain, j - 1) <==> j - 1 < f;
    assert InTree(p, nodes, chain, j) <==> j < f;
    forall h | h in orphans0 ensures h in orphans && orphans0[h].block == orphans[h].block {
      var b := orphans0[h].block;
      assert Slotted(chain, known, f, b);
      assert !InTree(p, nodes, chain, b.height);
    }
  }

  lemma DeliveredAside(p: Protocol, ga: Accounts, chain: seq<Block>, now: u64, nodes: map<Hash, Block>,
                       orphans0: Orphans, j: nat, orphans: Orphans, known: set<nat>)
    requires HashLaw(p) && Tree(p, nodes) && LinkedChain(p, chain) && 0 < j < |chain|
    requires Placed(p, chain, nodes, orphans0, known) && j != Front(known, |chain|)
    requires ParentsUnknown(nodes, orphans0) && ParentsUnknown(nodes, orphans)
    requires Delivered(p, ga, now, nodes, orphans0, chain[j], nodes, orphans, {})
    ensures Placed(p, chain, nodes, orphans, known + {j})
  {
    hide Tree, Accepted, HashLaw, Delivered, Refused, InTree, Front;
    var f := Front(known, |chain|);
    OrphansStay(p, ga, chain, now, nodes, orphans0, j, orphans, known);
    FrontGrows(known, |chain|, j);
    forall h | h in orphans
      ensures Slotted(chain, known + {j}, f, orphans[h].block) && p.hash(orphans[h].block) == h
    {
      if h in orphans0 { assert Slotted(chain, known, f, orphans0[h].block); }
    }
  }

  // ----- A delivery that extends the tree -----

  /** A valid block whose parent is in the tree neither waits nor is refused. */
  lemma NotHeldBack(p: Protocol, ga: Accounts, chain: seq<Block>, now: u64, nodes: map<Hash, Block>, orphans: Orphans,
                    i: nat)
    requires HashLaw(p) && ga != map[] && ValidChain(p, ga, chain, now) && Tree(p, nodes) && 0 < i < |chain|
    requires ParentsUnknown(nodes, orphans) && InTree(p, nodes, chain, i - 1)
    ensures !Refused(p, ga, nodes, chain[i], now)
    ensures p.hash(chain[i]) in orphans ==> orphans[p.hash(chain[i])].block != chain[i]
  {
    hide Tree, BranchVerdict;
    ChainBranch(p, nodes, chain, i - 1);
    assert ValidAt(p, ga, chain, i, now);
  }

  /** What the lemmas below share: the first missing block of a valid chain is delivered. */
  ghost predicate Connects(p: Protocol, ga: Accounts, chain: seq<Block>, now: u64, nodes0: map<Hash, Block>,
                           orphans0: Orphans, nodes: map<Hash, Block>, orphans: Orphans, known: set<nat>)
  {
    && HashLaw(p) && ga != map[] && ValidChain(p, ga, chain, now)
    && Placed(p, chain, nodes0, orphans0, known) && 0 < Front(known, |chain|) < |chain|
    && ParentsUnknown(nodes, orphans)
    && Delivered(p, ga, now, nodes0, orphans0, chain[Front(known, |chain|)], nodes, orphans, {})
  }

  /** The delivered block connects. */
  lemma FirstConnects(p: Protocol, ga: Accounts, chain: seq<Block>, now: u64, nodes0: map<Hash, Block>,
                      orphans0: Orphans, nodes: map<Hash, Block>, orphans: Orphans, known: set<nat>)
    requires Connects(p, ga, chain, now, nodes0, orphans0, nodes, orphans, known)
    ensures var f := Front(known, |chain|);
            (forall i :: 0 <= i <= f ==> InTree(p, nodes, chain, i)) && p.hash(chain[f]) !in orphans
  {
    hide Tree, Accepted, Refused, Front;
    var f := Front(known, |chain|);
    forall i | 0 <= i < f ensures InTree(p, nodes, chain, i) { assert InTree(p, nodes0, chain, i); }
    NotHeldBack(p, ga, chain, now, nodes, orphans, f);
    NotWaiting(p, chain, nodes0, orphans0, known);
  }

  lemma NotWaiting(p: Protocol, chain: seq<Block>, nodes: map<Hash, Block>, orphans: Orphans, known: set<nat>)
    requires HashLaw(p) && LinkedChain(p, chain) && Placed(p, chain, nodes, orphans, known)
    requires Front(known, |chain|) < |chain|
    ensures p.hash(chain[Front(known, |chain|)]) !in orphans
  {
    hide Front;
  }

  /** The waiting blocks up to the next gap follow one by one. */
  lemma {:induction false} ConnectUp(p: Protocol, ga: Accounts, chain: seq<Block>, now: u64, nodes0: map<Hash, Block>,
                                     orphans0: Orphans, nodes: map<Hash, Block>, orphans: Orphans, known: set<nat>,
                                     i: nat)
    requires Connects(p, ga, chain, now, nodes0, orphans0, nodes, orphans, known)
    requires Front(known, |chain|) <= i < |chain| && forall k :: Front(known, |chain|) < k <= i ==> k in known
    requires InTree(p, nodes, chain, Front(known, |chain|))
    ensures InTree(p, nodes, chain, i)
  {
    hide Tree, Accepted, Refused, ValidAt, Front;
    if i > Front(known, |chain|) {
      ConnectUp(p, ga, chain, now, nodes0, orphans0, nodes, orphans, known, i - 1);
      NotHeldBack(p, ga, chain, now, nodes, orphans, i);
      assert orphans0[p.hash(chain[i])].block == chain[i];
    }
  }

  /** A block above the front that is in the tree afterwards was waiting. */
  lemma NewWasWaiting(p: Protocol, ga: Accounts, chain: seq<Block>, now: u64, nodes0: map<Hash, Block>,
                      orphans0: Orphans, nodes: map<Hash, Block>, orphans: Orphans, known: set<nat>, k: nat)
    requires Connects(p, ga, chain, now, nodes0, orphans0, nodes, orphans, known)
    requires Front(known, |chain|) < k < |chain|
    ensures InTree(p, nodes, chain, k) ==> k in known
  {
    hide Tree, Accepted, Refused, Front;
    var h := p.hash(chain[k]);
    assert !InTree(p, nodes0, chain, k);
    if h in nodes {
      TreeDigest(p, nodes, h);
      if h in orphans0 { assert Slotted(chain, known, Front(known, |chain|), orphans0[h].block); }
    }
  }

  /** Nothing above the next gap connects. */
  lemma NothingBeyond(p: Protocol, ga: Accounts, chain: seq<Block>, now: u64, nodes0: map<Hash, Block>,
                      orphans0: Orphans, nodes: map<Hash, Block>, orphans: Orphans, known: set<nat>, i: nat)
    requires Connects(p, ga, chain, now, nodes0, orphans0, nodes, orphans, known)
    requires Front(known + {Front(known, |chain|)}, |chain|) <= i < |chain|
    ensures !InTree(p, nodes, chain, i)
  {
    hide Tree, Accepted, Refused, Front, Placed;
    var f := Front(known, |chain|);
    var g := Front(known + {f}, |chain|);
    FrontGrows(known, |chain|, f);
    NewWasWaiting(p, ga, chain, now, nodes0, orphans0, nodes, orphans, known, g);
    if InTree(p, nodes, chain, i) { ChainBranch(p, nodes, chain, i); }
  }

  lemma ConnectedTree(p: Protocol, ga: Accounts, chain: seq<Block>, now: u64, nodes0: map<Hash, Block>,
                      orphans0: Orphans, nodes: map<Hash, Block>, orphans: Orphans, known: set<nat>, i: nat)
    requires Connects(p, ga, chain, now, nodes0, orphans0, nodes, orphans, known) && i < |chain|
    ensures InTree(p, nodes, chain, i) <==> i < Front(known + {Front(known, |chain|)}, |chain|)
  {
    hide Connects, InTree, Front;
    var f := Front(known, |chain|);
    assert f < |chain| by { ConnectsFront(p, ga, chain, now, nodes0, orphans0, nodes, orphans, known); }
    FirstConnects(p, ga, chain, now, nodes0, orphans0, nodes, orphans, known);
    FrontGrows(known, |chain|, f);
    var g := Front(known + {f}, |chain|);
    if f < i < g {
      assert forall k :: f < k <= i ==> k in known + {f};
      ConnectUp(p, ga, chain, now, nodes0, orphans0, nodes, orphans, known, i);
    } else if g <= i {
      NothingBeyond(p, ga, chain, now, nodes0, orphans0, nodes, orphans, known, i);
    }
  }

  lemma ConnectsFront(p: Protocol, ga: Accounts, chain: seq<Block>, now: u64, nodes0: map<Hash, Block>,
                      orphans0: Orphans, nodes: map<Hash, Block>, orphans: Orphans, known: set<nat>)
    requires Connects(p, ga, chain, now, nodes0, orphans0, nodes, orphans, known)
    ensures 0 < Front(known, |chain|) < |chain| && 0 in known && forall i :: i in known ==> i < |chain|
  {
    hide Front;
  }

  /** The pool afterwards: what waited above the next gap. */
  lemma ConnectedPool(p: Protocol, ga: Accounts, chain: seq<Block>, now: u64, nodes0: map<Hash, Block>,
                      orphans0: Orphans, nodes: map<Hash, Block>, orphans: Orphans, known: set<nat>, g: nat)
    requires Connects(p, ga, chain, now, nodes0, orphans0, nodes, orphans, known)
    requires p.hash(chain[Front(known, |chain|)]) !in orphans && Front(known, |chain|) < g
    requires forall i :: 0 <= i < |chain| ==> (InTree(p, nodes, chain, i) <==> i < g)
    ensures forall h :: h in orphans ==> Slotted(chain, known, g, orphans[h].block) && p.hash(orphans[h].block) == h
    ensures forall i {:trigger chain[i]} :: i in known && i > g ==> p.hash(chain[i]) in orphans
  {
    hide Tree, Accepted, Front;
    var f := Front(known, |chain|);
    forall h | h in orphans ensures Slotted(chain, known, g, orphans[h].block) && p.hash(orphans[h].block) == h {
      var b := orphans0[h].block;
      assert Slotted(chain, known, f, b);
      assert !InTree(p, nodes, chain, b.height - 1);
    }
    forall i {:trigger chain[i]} | i in known && i > g ensures p.hash(chain[i]) in orphans {
      var h := p.hash(chain[i]);
      assert orphans0[h].block == chain[i];
      assert !InTree(p, nodes, chain, i - 1) && !InTree(p, nodes, chain, i);
    }
  }

  lemma DeliveredConnects(p: Protocol, ga: Accounts, chain: seq<Block>, now: u64, nodes0: map<Hash, Block>,
                          orphans0: Orphans, nodes: map<Hash, Block>, orphans: Orphans, known: set<nat>)
    requires Connects(p, ga, chain, now, nodes0, orphans0, nodes, orphans, known)
    ensures Placed(p, chain, nodes, orphans, known + {Front(known, |chain|)})
  {
    hide Connects, InTree, Front;
    var f := Front(known, |chain|);
    var more := known + {f};
    var g := Front(more, |chain|);
    ConnectsFront(p, ga, chain, now, nodes0, orphans0, nodes, orphans, known);
    FirstConnects(p, ga, chain, now, nodes0, orphans0, nodes, orphans, known);
    FrontGrows(known, |chain|, f);
    forall i | 0 <= i < |chain| ensures InTree(p, nodes, chain, i) <==> i < g {
      ConnectedTree(p, ga, chain, now, nodes0, orphans0, nodes, orphans, known, i);
    }
    ConnectedPool(p, ga, chain, now, nodes0, orphans0, nodes, orphans, known, g);
    forall h | h in orphans ensures Slotted(chain, more, g, orphans[h].block) {
      assert Slotted(chain, known, g, orphans[h].block);
    }
  }

  // ----- Nothing is dropped -----

  /** No orphan arrived before `t0`. */
  ghost predicate ArrivedSince(orphans: Orphans, t0: u64)
  {
    forall h :: h in orphans ==> t0 <= orphans[h].receivedAt
  }

  lemma StaysSince(p: Protocol, ga: Accounts, now: u64, nodes0: map<Hash, Block>, orphans0: Orphans, b: Block,
                   nodes: map<Hash, Block>, orphans: Orphans, t0: u64)
    requires ArrivedSince(orphans0, t0) && t0 <= now && Delivered(p, ga, now, nodes0, orphans0, b, nodes, orphans, {})
    ensures ArrivedSince(orphans, t0)
  {
    hide Tree, Accepted, Refused;
  }

  lemma {:induction false} CountOrphans(p: Protocol, chain: seq<Block>, keys: set<Hash>, lo: nat, hi: nat)
    requires lo <= hi <= |chain| && forall h :: h in keys ==> exists i :: lo <= i < hi && p.hash(chain[i]) == h
    ensures |keys| <= hi - lo
  {
    if lo == hi {
      assert keys == {};
    } else {
      CountOrphans(p, chain, keys - {p.hash(chain[hi - 1])}, lo, hi - 1);
    }
  }

  /** A block at this height may wait: it lies within 512 heights of `base` and the gap fits the pool. */
  predicate MayWait(i: nat, f: nat, base: nat)
  {
    i <= base + MAX_ORPHAN_HEIGHT_DISTANCE && i < f + MAX_ORPHAN_BLOCKS
  }

  ghost predicate AllMayWait(known: set<nat>, f: nat, base: nat)
  {
    forall i :: i in known ==> MayWait(i, f, base)
  }

  lemma FewOrphans(p: Protocol, chain: seq<Block>, nodes: map<Hash, Block>, orphans: Orphans, known: set<nat>,
                   base: nat)
    requires Placed(p, chain, nodes, orphans, known) && AllMayWait(known, Front(known, |chain|), base)
    ensures |orphans| < MAX_ORPHAN_BLOCKS
  {
    hide Front, InTree;
    var f := Front(known, |chain|);
    var lo := if f < |chain| then f + 1 else f;
    var hi := if |chain| < f + MAX_ORPHAN_BLOCKS then |chain| else f + MAX_ORPHAN_BLOCKS;
    forall h | h in orphans.Keys ensures exists i :: lo <= i < hi && p.hash(chain[i]) == h {
      assert Slotted(chain, known, f, orphans[h].block);
      assert lo <= orphans[h].block.height < hi && p.hash(chain[orphans[h].block.height]) == h;
    }
    CountOrphans(p, chain, orphans.Keys, lo, hi);
  }

  /** Fork choice never moves from a tip at or above `base` to a block below it. */
  ghost predicate NeverBelow(p: Protocol, base: nat)
  {
    forall nodes: map<Hash, Block>, best, h {:trigger p.prefers(nodes, best, h)} ::
      best in nodes && h in nodes && nodes[h].height < base <= nodes[best].height ==> !p.prefers(nodes, best, h)
  }

  /** The active tip stays at or above `base` while blocks from `f` up connect. */
  ghost predicate Floor(p: Protocol, base: nat, f: nat)
  {
    base <= f || NeverBelow(p, base)
  }

  lemma {:induction false} PathStaysAbove(p: Protocol, base: nat, path: seq<ForkChoice>, before: ForkChoice,
                                          after: ForkChoice)
    requires NeverBelow(p, base) && InsertPath(p, path, before, after) && before.best in before.nodes
    requires base <= BestHeight(before)
    ensures after.best in after.nodes && base <= BestHeight(after)
  {
    hide Tree;
    var n := |path| - 1;
    if n > 0 {
      assert InsertStep(p, path[n - 1], path[n]);
      PathStaysAbove(p, base, path[..n], before, path[n - 1]);
      var b :| Insert(p, path[n - 1], b) == Ok(after);
    }
  }

  /** The tip right after the delivered block connects is still at or above `base`. */
  lemma MidTipAbove(p: Protocol, base: nat, f: nat, fc0: ForkChoice, b: Block, fc: ForkChoice)
    requires Floor(p, base, f) && fc0.best in fc0.nodes && base <= BestHeight(fc0)
    requires b.height != f ==> fc == fc0
    ensures base <= MidTip(p, fc0, b, fc)
  {
  }

  /** Within ten minutes of `t0` and 512 heights of the tip, deliveries from the chain drop nothing. */
  lemma ChainNotDropped(p: Protocol, chain: seq<Block>, nodes: map<Hash, Block>, orphans0: Orphans, known: set<nat>,
                        base: nat, tip: nat, mid: nat, t0: u64, j: nat, now: u64, dropped: set<Hash>)
    requires Placed(p, chain, nodes, orphans0, known) && LinkedChain(p, chain) && ArrivedSince(orphans0, t0)
    requires t0 <= now <= t0 + ORPHAN_BLOCK_TTL_SECS && base <= tip && base <= mid
    requires AllMayWait(known, Front(known, |chain|), base) && j < |chain| && MayWait(j, Front(known, |chain|), base)
    requires DropsJustified(p, tip, mid, orphans0, chain[j], now, dropped)
    ensures dropped == {} && Survivors(orphans0, tip, now) == orphans0
  {
    hide Front, InTree;
    FewOrphans(p, chain, nodes, orphans0, known, base);
    forall h | h in orphans0 ensures !Spent(tip, orphans0[h], now) && !TooFarAhead(mid, orphans0[h].block) {
      assert Slotted(chain, known, Front(known, |chain|), orphans0[h].block);
    }
    assert !TooFarAhead(tip, chain[j]);
    forall h ensures !DropReason(p, tip, mid, orphans0, chain[j], now, h) {
    }
  }

  // ----- One delivered block of the chain -----

  /** What the node says about each block of a valid chain. */
  lemma ChainVerdict(p: Protocol, ga: Accounts, l: Ledger, fc: ForkChoice, chain: seq<Block>, orphans: Orphans,
                     known: set<nat>, j: nat, now: u64)
    requires HashLaw(p) && Consistent(p, ga, l, fc) && ga != map[] && ValidChain(p, ga, chain, now)
    requires Placed(p, chain, fc.nodes, orphans, known) && 0 < j < |chain|
    ensures KnownParentVerdict(p, ga, l, fc, chain[j], now) ==
            if j < Front(known, |chain|) then Some(ForkChoiceFailure(DuplicateBlock))
            else if j == Front(known, |chain|) then None
            else Some(ForkChoiceFailure(MissingParent))
  {
    hide Tree, AllReplay, Branch, Replay, StateVerdict, HashLaw, Front;
    var f := Front(known, |chain|);
    assert ValidAt(p, ga, chain, j, now);
    assert InTree(p, fc.nodes, chain, j - 1) <==> j - 1 < f;
    assert InTree(p, fc.nodes, chain, j) <==> j < f;
    if j <= f { ChainBranch(p, fc.nodes, chain, j - 1); }
  }

  /** The node asks for the parent of a delivered block exactly if the block starts to wait. */
  lemma ChainAsks(p: Protocol, chain: seq<Block>, nodes: map<Hash, Block>, orphans0: Orphans, known: set<nat>,
                  base: nat, tip: nat, j: nat, now: u64)
    requires HashLaw(p) && Placed(p, chain, nodes, orphans0, known) && LinkedChain(p, chain) && 0 < j < |chain|
    requires Survivors(orphans0, tip, now) == orphans0 && base <= tip && j <= base + MAX_ORPHAN_HEIGHT_DISTANCE
    ensures (chain[j].prev !in nodes && chain[j].height > 0
             && TakesIn(p, nodes, tip, Survivors(orphans0, tip, now), chain[j], now)) <==>
            j > Front(known, |chain|) && j !in known
  {
    hide Survivors, Front;
    var f := Front(known, |chain|);
    assert InTree(p, nodes, chain, j - 1) <==> j - 1 < f;
    assert InTree(p, nodes, chain, j) <==> j < f;
    var h := p.hash(chain[j]);
    if h in orphans0 { assert Slotted(chain, known, f, orphans0[h].block); }
  }

  ghost predicate OfChain(p: Protocol, chain: seq<Block>, h: Hash)
  {
    exists i :: 0 <= i < |chain| && p.hash(chain[i]) == h
  }

  /** Only blocks of the chain enter the tree, and a tip that moves, moves to one of them. */
  lemma TipMoves(p: Protocol, ga: Accounts, chain: seq<Block>, now: u64, fc0: ForkChoice, orphans0: Orphans,
                 fc: ForkChoice, orphans: Orphans, known: set<nat>, base: nat)
    requires HashLaw(p) && Placed(p, chain, fc0.nodes, orphans0, known) && Front(known, |chain|) < |chain|
    requires LinkedChain(p, chain) && fc0.best in fc0.nodes && base <= BestHeight(fc0)
    requires Floor(p, base, Front(known, |chain|))
    requires Delivered(p, ga, now, fc0.nodes, orphans0, chain[Front(known, |chain|)], fc.nodes, orphans, {})
    requires Advanced(p, fc0, fc)
    ensures fc.best in fc.nodes && base <= BestHeight(fc)
    ensures fc.best == fc0.best || OfChain(p, chain, fc.best)
    ensures forall h :: h in fc.nodes ==> h in fc0.nodes || OfChain(p, chain, h)
  {
    hide Tree, Accepted, Refused, InsertPath, NeverBelow, Front, InTree;
    var f := Front(known, |chain|);
    AdvancedGrows(p, fc0, fc);
    forall h | h in fc.nodes && h !in fc0.nodes ensures OfChain(p, chain, h) && f <= fc.nodes[h].height {
      TreeDigest(p, fc.nodes, h);
      if fc.nodes[h] != chain[f] { assert Slotted(chain, known, f, orphans0[h].block); }
      assert p.hash(chain[fc.nodes[h].height]) == h;
    }
    if base > f {
      var path: seq<ForkChoice> :| InsertPath(p, path, fc0, fc);
      PathStaysAbove(p, base, path, fc0, fc);
    }
  }

  /** One delivered block of the chain is one more known block. */
  lemma ChainStep(p: Protocol, ga: Accounts, chain: seq<Block>, now: u64, fc0: ForkChoice, orphans0: Orphans,
                  fc: ForkChoice, orphans: Orphans, known: set<nat>, j: nat, t0: u64, base: nat)
    requires HashLaw(p) && ga != map[] && ValidChain(p, ga, chain, now) && Tree(p, fc0.nodes)
    requires Placed(p, chain, fc0.nodes, orphans0, known) && 0 < j < |chain|
    requires ArrivedSince(orphans0, t0) && t0 <= now
    requires ParentsUnknown(fc0.nodes, orphans0) && ParentsUnknown(fc.nodes, orphans)
    requires Delivered(p, ga, now, fc0.nodes, orphans0, chain[j], fc.nodes, orphans, {}) && Advanced(p, fc0, fc)
    requires j != Front(known, |chain|) ==> fc == fc0
    requires fc0.best in fc0.nodes && base <= BestHeight(fc0) && Floor(p, base, Front(known, |chain|))
    ensures Placed(p, chain, fc.nodes, orphans, known + {j})
    ensures ArrivedSince(orphans, t0) && fc.best in fc.nodes && base <= BestHeight(fc)
    ensures fc.best == fc0.best || OfChain(p, chain, fc.best)
    ensures forall h :: h in fc.nodes ==> h in fc0.nodes || OfChain(p, chain, h)
  {
    hide Tree, Delivered, Placed, ArrivedSince, ParentsUnknown, HashLaw, ValidAt, Advanced, Floor, Front;
    StaysSince(p, ga, now, fc0.nodes, orphans0, chain[j], fc.nodes, orphans, t0);
    if j == Front(known, |chain|) {
      DeliveredConnects(p, ga, chain, now, fc0.nodes, orphans0, fc.nodes, orphans, known);
      TipMoves(p, ga, chain, now, fc0, orphans0, fc, orphans, known, base);
    } else {
      DeliveredAside(p, ga, chain, now, fc0.nodes, orphans0, j, orphans, known);
    }
  }
}
