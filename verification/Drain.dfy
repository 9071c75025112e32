/** What draining the orphan pool does to the tree and the pool, as a relation. */
module Drain {
  import opened Types
  import opened Protocols
  import opened ForkTree
  import opened Replays
  import opened Orphanage

  /** The parent is known and the block meets everything its branch demands. */
  ghost predicate Accepted(p: Protocol, ga: Accounts, nodes: map<Hash, Block>, b: Block, now: u64)
    requires Tree(p, nodes)
  {
    b.prev in nodes && Passes(p, ga, Branch(p, nodes, b.prev), b, now)
  }

  /** The parent is known and the block fails something its branch demands. Without genesis accounts
      side branches cannot be replayed, so there a refusal says nothing about the block. */
  ghost predicate Refused(p: Protocol, ga: Accounts, nodes: map<Hash, Block>, b: Block, now: u64)
    requires Tree(p, nodes)
  {
    b.prev in nodes && (ga != map[] ==> !Passes(p, ga, Branch(p, nodes, b.prev), b, now))
  }

  /** Verdicts do not change as the tree grows. */
  lemma VerdictsStable(p: Protocol, ga: Accounts, small: map<Hash, Block>, large: map<Hash, Block>, b: Block, now: u64)
    requires Tree(p, small) && Tree(p, large) && Grows(small, large)
    ensures Accepted(p, ga, small, b, now) ==> Accepted(p, ga, large, b, now)
    ensures Refused(p, ga, small, b, now) ==> Refused(p, ga, large, b, now)
  {
    if b.prev in small { BranchStable(p, small, large, b.prev); }
  }

  /** The tree grew by valid orphans only, and every orphan is still waiting, in the tree, or
      was refused by its own branch. */
  ghost predicate Drained(p: Protocol, ga: Accounts, nodes0: map<Hash, Block>, orphans0: Orphans,
                          nodes: map<Hash, Block>, orphans: Orphans, now: u64)
  {
    && Tree(p, nodes) && Grows(nodes0, nodes)
    && (forall h :: h in nodes && h !in nodes0 ==>
          h in orphans0 && nodes[h] == orphans0[h].block && Accepted(p, ga, nodes, nodes[h], now))
    && (forall h :: h in orphans ==> h in orphans0 && orphans[h] == orphans0[h])
    && (forall h :: h in orphans0 ==> h in orphans || h in nodes || Refused(p, ga, nodes, orphans0[h].block, now))
  }

  lemma DrainAccepts(p: Protocol, ga: Accounts, nodes0: map<Hash, Block>, orphans0: Orphans, nodes: map<Hash, Block>,
                     orphans: Orphans, larger: map<Hash, Block>, c: Hash, now: u64)
    requires Drained(p, ga, nodes0, orphans0, nodes, orphans, now) && c in orphans
    requires Tree(p, larger) && larger == nodes[c := orphans[c].block] && c !in nodes
    requires Accepted(p, ga, larger, orphans[c].block, now)
    ensures Drained(p, ga, nodes0, orphans0, larger, orphans - {c}, now)
  {
    hide Accepted, Refused, Tree;
    forall b ensures Accepted(p, ga, nodes, b, now) ==> Accepted(p, ga, larger, b, now)
             ensures Refused(p, ga, nodes, b, now) ==> Refused(p, ga, larger, b, now)
    {
      VerdictsStable(p, ga, nodes, larger, b, now);
    }
  }

  lemma DrainRefuses(p: Protocol, ga: Accounts, nodes0: map<Hash, Block>, orphans0: Orphans, nodes: map<Hash, Block>,
                     orphans: Orphans, c: Hash, now: u64)
    requires Drained(p, ga, nodes0, orphans0, nodes, orphans, now) && c in orphans
    requires c in nodes || Refused(p, ga, nodes, orphans[c].block, now)
    ensures Drained(p, ga, nodes0, orphans0, nodes, orphans - {c}, now)
  {
    hide Accepted, Refused, Tree;
  }

  /** Every orphan with a known parent is pending or has that parent on the worklist, and the
      worklist holds only known blocks. */
  ghost predicate Covered(nodes: map<Hash, Block>, orphans: Orphans, pending: set<Hash>, worklist: seq<Hash>)
  {
    && (forall h :: h in worklist ==> h in nodes)
    && (forall h :: h in orphans && orphans[h].block.prev in nodes ==>
          h in pending || orphans[h].block.prev in worklist)
  }

  lemma CoveredAccept(nodes: map<Hash, Block>, orphans: Orphans, pending: set<Hash>, worklist: seq<Hash>, c: Hash,
                      b: Block)
    requires Covered(nodes, orphans, pending, worklist)
    ensures Covered(nodes[c := b], orphans - {c}, pending - {c}, worklist + [c])
  {
  }

  lemma CoveredRefuse(nodes: map<Hash, Block>, orphans: Orphans, pending: set<Hash>, worklist: seq<Hash>, c: Hash)
    requires Covered(nodes, orphans, pending, worklist)
    ensures Covered(nodes, orphans - {c}, pending - {c}, worklist)
  {
  }

  /** Popping a parent makes its children pending. */
  lemma CoveredPop(p: Protocol, nodes: map<Hash, Block>, orphans: Orphans, children: Children, worklist: seq<Hash>)
    requires worklist != [] && Covered(nodes, orphans, {}, worklist) && Indexed(p, orphans, children, {})
    ensures var n := |worklist| - 1; var parent := worklist[n];
            Covered(nodes, orphans, if parent in children then Members(children[parent]) else {}, worklist[..n])
  {
    var n := |worklist| - 1;
    assert worklist == worklist[..n] + [worklist[n]];
  }

  /** Midway through a drain that began with `nodes0` and `orphans0`. */
  ghost predicate Midway(p: Protocol, ga: Accounts, nodes0: map<Hash, Block>, orphans0: Orphans, now: u64,
                         nodes: map<Hash, Block>, orphans: Orphans, children: Children, pending: set<Hash>,
                         worklist: seq<Hash>)
  {
    && Indexed(p, orphans, children, pending)
    && Drained(p, ga, nodes0, orphans0, nodes, orphans, now)
    && Covered(nodes, orphans, pending, worklist)
  }

  lemma MidwayAccept(p: Protocol, ga: Accounts, nodes0: map<Hash, Block>, orphans0: Orphans, now: u64,
                     nodes: map<Hash, Block>, orphans: Orphans, children: Children, pending: set<Hash>,
                     worklist: seq<Hash>, larger: map<Hash, Block>, c: Hash)
    requires Midway(p, ga, nodes0, orphans0, now, nodes, orphans, children, pending, worklist) && c in orphans
    requires c in pending
    requires Tree(p, larger) && larger == nodes[c := orphans[c].block] && c !in nodes
    requires Accepted(p, ga, larger, orphans[c].block, now)
    ensures Midway(p, ga, nodes0, orphans0, now, larger, orphans - {c}, children, pending - {c}, worklist + [c])
  {
    hide Indexed, Drained, Covered, Tree, Accepted;
    DropKeepsIndexed(p, orphans, children, pending, c);
    DrainAccepts(p, ga, nodes0, orphans0, nodes, orphans, larger, c, now);
    CoveredAccept(nodes, orphans, pending, worklist, c, orphans[c].block);
  }

  lemma MidwayRefuse(p: Protocol, ga: Accounts, nodes0: map<Hash, Block>, orphans0: Orphans, now: u64,
                     nodes: map<Hash, Block>, orphans: Orphans, children: Children, pending: set<Hash>,
                     worklist: seq<Hash>, c: Hash)
    requires Midway(p, ga, nodes0, orphans0, now, nodes, orphans, children, pending, worklist) && c in orphans
    requires c in pending
    requires c in nodes || Refused(p, ga, nodes, orphans[c].block, now)
    ensures Midway(p, ga, nodes0, orphans0, now, nodes, orphans - {c}, children, pending - {c}, worklist)
  {
    hide Indexed, Covered, Tree, Accepted, Refused;
    DropKeepsIndexed(p, orphans, children, pending, c);
    DrainRefuses(p, ga, nodes0, orphans0, nodes, orphans, c, now);
    CoveredRefuse(nodes, orphans, pending, worklist, c);
  }

  /** Popping a worklist entry moves its children, if any, from the index to the pending list. */
  lemma MidwayPop(p: Protocol, ga: Accounts, nodes0: map<Hash, Block>, orphans0: Orphans, now: u64,
                  nodes: map<Hash, Block>, orphans: Orphans, children: Children, worklist: seq<Hash>)
    requires Midway(p, ga, nodes0, orphans0, now, nodes, orphans, children, {}, worklist) && worklist != []
    ensures var n := |worklist| - 1; var parent := worklist[n];
            && parent in nodes
            && (parent !in children ==>
                  Midway(p, ga, nodes0, orphans0, now, nodes, orphans, children, {}, worklist[..n]))
            && (parent in children ==>
                  NoRepeats(children[parent]) && (forall c :: c in children[parent] ==> Waiting(p, orphans, parent, c))
                  && Midway(p, ga, nodes0, orphans0, now, nodes, orphans, children - {parent},
                  Members(children[parent]), worklist[..n]))
  {
    var parent := worklist[|worklist| - 1];
    assert parent in nodes;
    CoveredPop(p, nodes, orphans, children, worklist);
    hide Indexed, Drained, Covered, Tree, Waiting;
    if parent in children { TakeKeepsIndexed(p, orphans, children, parent); }
  }

  lemma MidwayStart(p: Protocol, ga: Accounts, now: u64, nodes: map<Hash, Block>, orphans: Orphans, children: Children,
                    parent: Hash)
    requires Tree(p, nodes) && Indexed(p, orphans, children, {}) && parent in nodes
    requires forall h :: h in orphans && orphans[h].block.prev in nodes ==> orphans[h].block.prev == parent
    ensures Midway(p, ga, nodes, orphans, now, nodes, orphans, children, {}, [parent])
  {
    hide Tree, Indexed, Accepted, Refused;
  }

  lemma MidwayDone(p: Protocol, ga: Accounts, nodes0: map<Hash, Block>, orphans0: Orphans, now: u64,
                   nodes: map<Hash, Block>, orphans: Orphans, children: Children)
    requires Midway(p, ga, nodes0, orphans0, now, nodes, orphans, children, {}, [])
    ensures Indexed(p, orphans, children, {}) && ParentsUnknown(nodes, orphans)
    ensures Drained(p, ga, nodes0, orphans0, nodes, orphans, now)
    ensures orphans.Keys <= orphans0.Keys
  {
    hide Tree, Indexed, Accepted, Refused;
  }
}
