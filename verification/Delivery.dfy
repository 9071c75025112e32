/** What one delivered block does to the tree and the orphan pool, as a relation. */
module Delivery {
  import opened Types
  import opened Protocols
  import opened ForkTree
  import opened Replays
  import opened Consistency
  import opened Orphanage
  import opened Drain

  /** The tree grew only by valid blocks that were delivered or waiting, and no delivered or
      waiting block was lost: it is in the tree, still waiting, refused by its own branch, a
      stray height-0 block, or named in `dropped`. A dropped block is in neither place. */
  ghost predicate Delivered(p: Protocol, ga: Accounts, now: u64, nodes0: map<Hash, Block>, orphans0: Orphans, b: Block,
                            nodes: map<Hash, Block>, orphans: Orphans, dropped: set<Hash>)
  {
    && Tree(p, nodes) && Grows(nodes0, nodes)
    && (forall h :: h in nodes && h !in nodes0 ==>
          Accepted(p, ga, nodes, nodes[h], now) && (nodes[h] == b || (h in orphans0 && nodes[h] == orphans0[h].block)))
    && (forall h :: h in orphans ==>
          (h in orphans0 && orphans[h] == orphans0[h]) || (h == p.hash(b) && orphans[h] == Orphan(b, now)))
    && (forall h :: h in orphans0 ==>
          h in orphans || h in nodes || h in dropped || Refused(p, ga, nodes, orphans0[h].block, now))
    && (p.hash(b) in orphans || p.hash(b) in nodes || p.hash(b) in dropped || b.height == 0
        || Refused(p, ga, nodes, b, now))
    && (forall h :: h in dropped ==> h !in nodes && h !in orphans)
  }

  /** Why a block may be dropped: it waited too long, it lies too far above the tip before the
      delivery (`tip`) or right after the block was accepted (`mid`), or the pool was full. */
  ghost predicate DropReason(p: Protocol, tip: nat, mid: nat, orphans0: Orphans, b: Block, now: u64, h: Hash)
  {
    || (h in orphans0
        && (Spent(tip, orphans0[h], now) || TooFarAhead(mid, orphans0[h].block) || |orphans0| >= MAX_ORPHAN_BLOCKS))
    || (h == p.hash(b) && TooFarAhead(tip, b))
  }

  ghost predicate DropsJustified(p: Protocol, tip: nat, mid: nat, orphans0: Orphans, b: Block, now: u64,
                                 dropped: set<Hash>)
  {
    forall h :: h in dropped ==> DropReason(p, tip, mid, orphans0, b, now, h)
  }

  /** The height of the best tip. */
  ghost function BestHeight(fc: ForkChoice): (r: nat)
    ensures r <= U64_MAX
  {
    if fc.best in fc.nodes then fc.nodes[fc.best].height else 0
  }

  /** The tip height right after a delivered block was accepted, or as before if it was not. */
  ghost function MidTip(p: Protocol, fc0: ForkChoice, b: Block, fc: ForkChoice): (r: nat)
  {
    if p.hash(b) !in fc0.nodes && p.hash(b) in fc.nodes && Insert(p, fc0, b).Ok? then
      BestHeight(Insert(p, fc0, b).value)
    else BestHeight(fc0)
  }

  /** Everything one delivery does to tree and pool, with the blocks it drops: an acceptable block goes
      in first and waiting blocks after it, any other leaves the tree alone, and no block with a
      known parent is left waiting. */
  ghost predicate DeliveryStep(p: Protocol, ga: Accounts, now: u64, fc0: ForkChoice, orphans0: Orphans, b: Block,
                               fc: ForkChoice, orphans: Orphans, dropped: set<Hash>)
  {
    && Delivered(p, ga, now, fc0.nodes, orphans0, b, fc.nodes, orphans, dropped)
    && DropsJustified(p, BestHeight(fc0), MidTip(p, fc0, b, fc), orphans0, b, now, dropped)
    && Advanced(p, fc0, fc) && ParentsUnknown(fc.nodes, orphans)
    && Tree(p, fc0.nodes)
    && (Acceptable(p, ga, fc0, b, now) ==> Insert(p, fc0, b).Ok? && Advanced(p, Insert(p, fc0, b).value, fc))
    && (!Acceptable(p, ga, fc0, b, now) ==> fc == fc0)
  }

  /** The block was accepted and its waiting descendants were drained. */
  lemma DeliverAccepted(p: Protocol, ga: Accounts, now: u64, tip: nat, tip1: nat, nodes0: map<Hash, Block>,
                        orphans0: Orphans, b: Block,
                        nodes1: map<Hash, Block>, nodes: map<Hash, Block>,
                        orphans: Orphans) returns (dropped: set<Hash>)
    requires Tree(p, nodes1) && nodes1 == nodes0[p.hash(b) := b] && p.hash(b) !in nodes0
    requires Accepted(p, ga, nodes1, b, now)
    requires Drained(p, ga, nodes1, Survivors(Survivors(orphans0, tip, now), tip1, now), nodes, orphans, now)
    ensures Delivered(p, ga, now, nodes0, orphans0, b, nodes, orphans, dropped)
    ensures DropsJustified(p, tip, tip1, orphans0, b, now, dropped)
  {
    hide Delivered, Drained, Accepted, Tree, Overdue, TooFarAhead, Survivors;
    var kept := Survivors(Survivors(orphans0, tip, now), tip1, now);
    SurvivorsTwice(orphans0, tip, tip1, now);
    DrainDelivers(p, ga, now, nodes0, orphans0, b, nodes1, kept, nodes, orphans);
    dropped := orphans0.Keys - kept.Keys - nodes.Keys;
  }

  lemma DrainDelivers(p: Protocol, ga: Accounts, now: u64, nodes0: map<Hash, Block>, orphans0: Orphans, b: Block,
                      nodes1: map<Hash, Block>, kept: Orphans, nodes: map<Hash, Block>, orphans: Orphans)
    requires Tree(p, nodes1) && nodes1 == nodes0[p.hash(b) := b] && p.hash(b) !in nodes0
    requires Accepted(p, ga, nodes1, b, now)
    requires Drained(p, ga, nodes1, kept, nodes, orphans, now)
    requires forall h :: h in kept ==> h in orphans0 && kept[h] == orphans0[h]
    ensures Delivered(p, ga, now, nodes0, orphans0, b, nodes, orphans, orphans0.Keys - kept.Keys - nodes.Keys)
  {
    hide Tree, Refused, Accepted;
    VerdictsStable(p, ga, nodes1, nodes, b, now);
    assert Grows(nodes0, nodes1) && Grows(nodes1, nodes);
    assert p.hash(b) in nodes && nodes[p.hash(b)] == b;
  }

  lemma SurvivorsTwice(orphans: Orphans, tip: nat, tip1: nat, now: u64)
    ensures var twice := Survivors(Survivors(orphans, tip, now), tip1, now);
            && (forall h :: h in twice <==>
                  h in orphans && !Spent(tip, orphans[h], now) && !Spent(tip1, orphans[h], now))
            && (forall h :: h in twice ==> twice[h] == orphans[h])
            && |twice| <= |orphans|
  {
    SurvivorsFewer(Survivors(orphans, tip, now), tip1, now);
    SurvivorsFewer(orphans, tip, now);
  }

  lemma AfterCachingFacts(p: Protocol, nodes: map<Hash, Block>, tip: nat, orphans0: Orphans, b: Block, now: u64)
    ensures var kept := Survivors(orphans0, tip, now); var pool := AfterCaching(p, nodes, tip, orphans0, b, now);
            && (forall h :: h in pool ==>
                  (h in kept && pool[h] == kept[h]) || (h == p.hash(b) && pool[h] == Orphan(b, now)))
            && (forall h :: h in kept ==> h in pool || |kept| >= MAX_ORPHAN_BLOCKS)
            && (p.hash(b) in pool || p.hash(b) in nodes || b.height == 0 || TooFarAhead(tip, b))
  {
    hide Survivors;
  }

  /** What pruning twice and making room leave of the pool. */
  lemma OrphanedFacts(p: Protocol, now: u64, tip: nat, nodes: map<Hash, Block>, orphans0: Orphans, b: Block,
                      orphans: Orphans)
    requires orphans == AfterCaching(p, nodes, tip, Survivors(orphans0, tip, now), b, now)
    ensures forall h :: h in orphans ==>
              (h in orphans0 && orphans[h] == orphans0[h]) || (h == p.hash(b) && orphans[h] == Orphan(b, now))
    ensures forall h :: h in orphans0 ==>
              h in orphans || Spent(tip, orphans0[h], now) || |orphans0| >= MAX_ORPHAN_BLOCKS
    ensures p.hash(b) in orphans || p.hash(b) in nodes || b.height == 0 || TooFarAhead(tip, b)
  {
    hide Overdue, TooFarAhead, Survivors, AfterCaching;
    SurvivorsTwice(orphans0, tip, tip, now);
    AfterCachingFacts(p, nodes, tip, Survivors(orphans0, tip, now), b, now);
  }

  /** The block's parent is unknown and the block was offered to the pool. */
  lemma DeliverOrphaned(p: Protocol, ga: Accounts, now: u64, tip: nat, nodes: map<Hash, Block>, orphans0: Orphans,
                        b: Block, orphans: Orphans)
    returns (dropped: set<Hash>)
    requires Tree(p, nodes)
    requires orphans == AfterCaching(p, nodes, tip, Survivors(orphans0, tip, now), b, now)
    ensures Delivered(p, ga, now, nodes, orphans0, b, nodes, orphans, dropped)
    ensures DropsJustified(p, tip, tip, orphans0, b, now, dropped)
  {
    hide Tree, Delivered, DropsJustified, Survivors, AfterCaching, Spent, TooFarAhead;
    OrphanedFacts(p, now, tip, nodes, orphans0, b, orphans);
    dropped := Unplaced(p, tip, nodes, orphans0, b, orphans);
    OrphanedDrops(p, now, tip, orphans0, b, orphans, dropped);
    OrphanedDelivered(p, ga, now, tip, nodes, orphans0, b, orphans, dropped);
  }

  /** The blocks that a refused place in the pool leaves in neither tree nor pool. */
  ghost function Unplaced(p: Protocol, tip: nat, nodes: map<Hash, Block>, orphans0: Orphans, b: Block,
                          orphans: Orphans): (r: set<Hash>)
  {
    ((orphans0.Keys - orphans.Keys) + if TooFarAhead(tip, b) then {p.hash(b)} else {}) - nodes.Keys - orphans.Keys
  }

  lemma OrphanedDrops(p: Protocol, now: u64, tip: nat, orphans0: Orphans, b: Block, orphans: Orphans,
                      dropped: set<Hash>)
    requires dropped <= (orphans0.Keys - orphans.Keys) + if TooFarAhead(tip, b) then {p.hash(b)} else {}
    requires forall h :: h in orphans0 ==>
               h in orphans || Spent(tip, orphans0[h], now) || |orphans0| >= MAX_ORPHAN_BLOCKS
    ensures DropsJustified(p, tip, tip, orphans0, b, now, dropped)
  {
    hide Spent, TooFarAhead;
    forall h | h in dropped ensures DropReason(p, tip, tip, orphans0, b, now, h) {
    }
  }

  lemma OrphanedDelivered(p: Protocol, ga: Accounts, now: u64, tip: nat, nodes: map<Hash, Block>, orphans0: Orphans,
                          b: Block, orphans: Orphans, dropped: set<Hash>)
    requires Tree(p, nodes) && dropped == Unplaced(p, tip, nodes, orphans0, b, orphans)
    requires forall h :: h in orphans ==>
               (h in orphans0 && orphans[h] == orphans0[h]) || (h == p.hash(b) && orphans[h] == Orphan(b, now))
    requires p.hash(b) in orphans || p.hash(b) in nodes || b.height == 0 || TooFarAhead(tip, b)
    ensures Delivered(p, ga, now, nodes, orphans0, b, nodes, orphans, dropped)
  {
    hide Tree, Accepted, Refused, TooFarAhead;
  }

  /** The block was not accepted for another reason. */
  lemma DeliverRefused(p: Protocol, ga: Accounts, now: u64, tip: nat, nodes: map<Hash, Block>, orphans0: Orphans,
                       b: Block)
    returns (dropped: set<Hash>)
    requires Tree(p, nodes)
    requires p.hash(b) in nodes || b.height == 0 || Refused(p, ga, nodes, b, now)
    ensures Delivered(p, ga, now, nodes, orphans0, b, nodes, Survivors(orphans0, tip, now), dropped)
    ensures DropsJustified(p, tip, tip, orphans0, b, now, dropped)
  {
    hide Tree, Accepted, Refused, Overdue, TooFarAhead;
    dropped := orphans0.Keys - Survivors(orphans0, tip, now).Keys - nodes.Keys;
  }

  /** What the verdict on a block says about the block. */
  lemma VerdictFacts(p: Protocol, ga: Accounts, l: Ledger, fc: ForkChoice, b: Block, now: u64)
    requires Consistent(p, ga, l, fc)
    ensures var verdict := KnownParentVerdict(p, ga, l, fc, b, now);
            && (verdict.None? ==> p.hash(b) !in fc.nodes && b.height > 0 && Accepted(p, ga, fc.nodes, b, now))
            && (verdict == Some(ForkChoiceFailure(MissingParent)) <==> b.height > 0 && b.prev !in fc.nodes)
            && (verdict.Some? && verdict != Some(ForkChoiceFailure(MissingParent)) ==>
                  p.hash(b) in fc.nodes || b.height == 0 || Refused(p, ga, fc.nodes, b, now))
  {
    hide Branch, Replay;
  }

  /** After one accepted block the active tip is the old one or that block. */
  lemma TipMoves(p: Protocol, ga: Accounts, l0: Ledger, fc0: ForkChoice, l: Ledger, fc: ForkChoice, b: Block)
    requires Consistent(p, ga, l0, fc0) && Consistent(p, ga, l, fc) && Insert(p, fc0, b) == Ok(fc)
    ensures |l.blocks| > 0 && |l0.blocks| > 0
    ensures l.blocks[|l.blocks| - 1] == l0.blocks[|l0.blocks| - 1] || l.blocks[|l.blocks| - 1] == b
    ensures fc.nodes == fc0.nodes[p.hash(b) := b]
  {
    ConsistentTip(p, ga, l0, fc0);
    ConsistentTip(p, ga, l, fc);
  }
}
