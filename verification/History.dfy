/** Runs of deliveries: which blocks end up in the tree, whatever the order. */
module History {
  import opened Types
  import opened Protocols
  import opened ForkTree
  import opened Replays
  import opened Consistency
  import opened Orphanage
  import opened Drain
  import opened Delivery

  /** `nodes` and `orphans` are what deliveries of exactly the blocks `seen` made of the tree
      `init`, with nothing dropped. */
  ghost predicate Settled(p: Protocol, ga: Accounts, now: u64, init: map<Hash, Block>, seen: set<Block>,
                          nodes: map<Hash, Block>, orphans: Orphans)
  {
    && Tree(p, nodes) && Grows(init, nodes)
    && (forall h :: h in nodes && h !in init ==> nodes[h] in seen && Accepted(p, ga, nodes, nodes[h], now))
    && (forall h :: h in orphans ==> orphans[h].block in seen && p.hash(orphans[h].block) == h)
    && (forall b :: b in seen ==>
          p.hash(b) in nodes || p.hash(b) in orphans || b.height == 0 || Refused(p, ga, nodes, b, now))
  }

  /** One more delivery without drops. */
  lemma SettledStep(p: Protocol, ga: Accounts, now: u64, init: map<Hash, Block>, seen: set<Block>,
                    nodes0: map<Hash, Block>, orphans0: Orphans, b: Block, nodes: map<Hash, Block>, orphans: Orphans)
    requires HashLaw(p) && Settled(p, ga, now, init, seen, nodes0, orphans0)
    requires Delivered(p, ga, now, nodes0, orphans0, b, nodes, orphans, {})
    ensures Settled(p, ga, now, init, seen + {b}, nodes, orphans)
  {
    hide Tree, Accepted, Refused;
    assert Grows(init, nodes);
    forall h | h in nodes && h !in init ensures nodes[h] in seen + {b} && Accepted(p, ga, nodes, nodes[h], now) {
      if h in nodes0 { VerdictsStable(p, ga, nodes0, nodes, nodes0[h], now); }
    }
    forall x | x in seen
      ensures p.hash(x) in nodes || p.hash(x) in orphans || x.height == 0 || Refused(p, ga, nodes, x, now)
    {
      SeenStays(p, ga, now, seen, nodes0, orphans0, b, nodes, orphans, x);
    }
  }

  lemma SeenStays(p: Protocol, ga: Accounts, now: u64, seen: set<Block>,
                  nodes0: map<Hash, Block>, orphans0: Orphans, b: Block, nodes: map<Hash, Block>, orphans: Orphans,
                  x: Block)
    requires HashLaw(p) && Tree(p, nodes0) && Delivered(p, ga, now, nodes0, orphans0, b, nodes, orphans, {})
    requires p.hash(x) in orphans0 ==> p.hash(orphans0[p.hash(x)].block) == p.hash(x)
    requires p.hash(x) in nodes0 || p.hash(x) in orphans0 || x.height == 0 || Refused(p, ga, nodes0, x, now)
    ensures p.hash(x) in nodes || p.hash(x) in orphans || x.height == 0 || Refused(p, ga, nodes, x, now)
  {
    hide Tree, Accepted, Refused;
    VerdictsStable(p, ga, nodes0, nodes, x, now);
  }

  /** A full ancestry: from the root of `init` up, each block is already in `init`, or was
      delivered and passes every check on the blocks below it. */
  ghost predicate Ancestry(p: Protocol, ga: Accounts, now: u64, init: map<Hash, Block>, seen: set<Block>,
                           br: seq<Block>)
  {
    && |br| > 0 && p.hash(br[0]) in init
    && (forall i :: 0 <= i < |br| ==> br[i].height == i)
    && (forall i :: 0 < i < |br| ==> br[i].prev == p.hash(br[i - 1]))
    && (forall i :: 0 <= i < |br| ==> Sound(p, ga, now, init, seen, br, i))
  }

  ghost predicate Sound(p: Protocol, ga: Accounts, now: u64, init: map<Hash, Block>, seen: set<Block>, br: seq<Block>,
                        i: nat)
    requires i < |br|
  {
    || (p.hash(br[i]) in init && init[p.hash(br[i])] == br[i])
    || (i > 0 && br[i] in seen && Passes(p, ga, br[..i], br[i], now))
  }

  /** Every block of the tree has a full ancestry: its branch. */
  lemma TreeHasAncestry(p: Protocol, ga: Accounts, now: u64, init: map<Hash, Block>, seen: set<Block>,
                        nodes: map<Hash, Block>, orphans: Orphans, h: Hash)
    requires HashLaw(p) && ConsensusLaw(p) && Tree(p, init) && Settled(p, ga, now, init, seen, nodes, orphans)
    requires h in nodes
    ensures Ancestry(p, ga, now, init, seen, Branch(p, nodes, h))
  {
    var br := Branch(p, nodes, h);
    AncestryAt(p, ga, now, init, seen, nodes, orphans, h, 0);
    forall i | 0 <= i < |br| ensures Sound(p, ga, now, init, seen, br, i) {
      AncestryAt(p, ga, now, init, seen, nodes, orphans, h, i);
    }
    forall i | 0 <= i < |br| ensures br[i].height == i {
      AncestryAt(p, ga, now, init, seen, nodes, orphans, h, i);
    }
    forall i | 0 < i < |br| ensures br[i].prev == p.hash(br[i - 1]) {
      AncestryAt(p, ga, now, init, seen, nodes, orphans, h, i);
    }
  }

  lemma AncestryAt(p: Protocol, ga: Accounts, now: u64, init: map<Hash, Block>, seen: set<Block>,
                   nodes: map<Hash, Block>, orphans: Orphans, h: Hash, i: nat)
    requires HashLaw(p) && ConsensusLaw(p) && Settled(p, ga, now, init, seen, nodes, orphans) && h in nodes
    requires i <= nodes[h].height
    ensures var br := Branch(p, nodes, h);
            br[i].height == i && (i > 0 ==> br[i].prev == p.hash(br[i - 1])) && Sound(p, ga, now, init, seen, br, i)
              && (i == 0 ==> p.hash(br[0]) in init)
  {
    hide Tree, Branch, BranchVerdict, Refused;
    var br := Branch(p, nodes, h);
    BranchElements(p, nodes, h, i);
    if i > 0 { BranchLink(p, nodes, h, i); }
    if p.hash(br[i]) !in init {
      assert Accepted(p, ga, nodes, br[i], now);
      VerdictReplays(p, ga, Branch(p, nodes, br[i].prev), br[i], now);
    }
  }

  /** A block with a full ancestry is in the tree once everything has settled. */
  lemma {:induction false} AncestryReachesTree(p: Protocol, ga: Accounts, now: u64, init: map<Hash, Block>,
                                               seen: set<Block>, nodes: map<Hash, Block>, orphans: Orphans,
                                               br: seq<Block>)
    requires HashLaw(p) && ga != map[]
    requires Settled(p, ga, now, init, seen, nodes, orphans) && ParentsUnknown(nodes, orphans)
    requires Ancestry(p, ga, now, init, seen, br)
    ensures var n := |br| - 1;
            p.hash(br[n]) in nodes && nodes[p.hash(br[n])] == br[n] && Branch(p, nodes, p.hash(br[n])) == br
  {
    var n := |br| - 1;
    assert Sound(p, ga, now, init, seen, br, n);
    if n == 0 {
      assert br == [br[0]];
    } else {
      var below := br[..n];
      forall i | 0 <= i < n ensures Sound(p, ga, now, init, seen, below, i) {
        assert Sound(p, ga, now, init, seen, br, i);
        assert below[..i] == br[..i];
      }
      AncestryReachesTree(p, ga, now, init, seen, nodes, orphans, below);
      NextReachesTree(p, ga, now, init, seen, nodes, orphans, br);
    }
  }

  lemma NextReachesTree(p: Protocol, ga: Accounts, now: u64, init: map<Hash, Block>, seen: set<Block>,
                        nodes: map<Hash, Block>, orphans: Orphans, br: seq<Block>)
    requires HashLaw(p) && ga != map[] && |br| > 1
    requires Settled(p, ga, now, init, seen, nodes, orphans) && ParentsUnknown(nodes, orphans)
    requires var n := |br| - 1;
             br[n].height > 0 && br[n].prev in nodes && Branch(p, nodes, br[n].prev) == br[..n]
               && Sound(p, ga, now, init, seen, br, n)
    ensures var n := |br| - 1;
            p.hash(br[n]) in nodes && nodes[p.hash(br[n])] == br[n] && Branch(p, nodes, p.hash(br[n])) == br
  {
    hide Tree, Branch, BranchVerdict;
    var n := |br| - 1;
    if p.hash(br[n]) !in init {
      assert !Refused(p, ga, nodes, br[n], now);
      hide Settled, Refused;
      NotLost(p, ga, now, init, seen, nodes, orphans, br[n]);
    }
    hide Settled, Refused;
    BranchExtends(p, nodes, br);
  }

  lemma BranchExtends(p: Protocol, nodes: map<Hash, Block>, br: seq<Block>)
    requires HashLaw(p) && Tree(p, nodes) && |br| > 1
    requires var b := br[|br| - 1];
             b.height > 0 && p.hash(b) in nodes && b.prev in nodes && Branch(p, nodes, b.prev) == br[..|br| - 1]
    ensures var b := br[|br| - 1]; nodes[p.hash(b)] == b && Branch(p, nodes, p.hash(b)) == br
  {
    var n := |br| - 1;
    var h := p.hash(br[n]);
    hide Tree, Branch;
    TreeDigest(p, nodes, h);
    BranchStep(p, nodes, h);
    assert br == br[..n] + [br[n]];
  }

  /** A delivered block whose parent is in the tree is in the tree too, or was refused. */
  lemma NotLost(p: Protocol, ga: Accounts, now: u64, init: map<Hash, Block>, seen: set<Block>, nodes: map<Hash, Block>,
                orphans: Orphans, b: Block)
    requires HashLaw(p) && Settled(p, ga, now, init, seen, nodes, orphans) && ParentsUnknown(nodes, orphans)
    requires b in seen && b.height > 0 && b.prev in nodes && !Refused(p, ga, nodes, b, now)
    ensures p.hash(b) in nodes
  {
    hide Tree, Refused, Accepted;
  }

  /** `h` ends a full ancestry. */
  ghost predicate Reaches(p: Protocol, ga: Accounts, now: u64, init: map<Hash, Block>, seen: set<Block>, h: Hash)
  {
    exists br: seq<Block> :: Ancestry(p, ga, now, init, seen, br) && p.hash(br[|br| - 1]) == h
  }

  /** Once settled, the tree holds exactly the blocks with a full delivered and valid ancestry. */
  lemma TreeIsConnectedBlocks(p: Protocol, ga: Accounts, now: u64, init: map<Hash, Block>, seen: set<Block>,
                              nodes: map<Hash, Block>, orphans: Orphans, h: Hash)
    requires HashLaw(p) && ConsensusLaw(p) && ga != map[] && Tree(p, init)
    requires Settled(p, ga, now, init, seen, nodes, orphans) && ParentsUnknown(nodes, orphans)
    ensures h in nodes <==> Reaches(p, ga, now, init, seen, h)
  {
    if h in nodes {
      TreeHasAncestry(p, ga, now, init, seen, nodes, orphans, h);
      assert Linked(p, nodes, h);
    }
    if br: seq<Block> :| Ancestry(p, ga, now, init, seen, br) && p.hash(br[|br| - 1]) == h {
      AncestryReachesTree(p, ga, now, init, seen, nodes, orphans, br);
    }
  }

  /** Two runs that delivered the same set of blocks, in any orders and with any repeats, end
      with the same tree. */
  lemma OrderIndependence(p: Protocol, ga: Accounts, now: u64, init: map<Hash, Block>, seen: set<Block>,
                          nodes1: map<Hash, Block>, orphans1: Orphans, nodes2: map<Hash, Block>, orphans2: Orphans)
    requires HashLaw(p) && ConsensusLaw(p) && ga != map[] && Tree(p, init)
    requires Settled(p, ga, now, init, seen, nodes1, orphans1) && ParentsUnknown(nodes1, orphans1)
    requires Settled(p, ga, now, init, seen, nodes2, orphans2) && ParentsUnknown(nodes2, orphans2)
    ensures nodes1 == nodes2
  {
    hide Tree, Settled, Reaches, HashLaw, ConsensusLaw, ParentsUnknown;
    SettledTrees(p, ga, now, init, seen, nodes1, orphans1);
    SettledTrees(p, ga, now, init, seen, nodes2, orphans2);
    forall h ensures h in nodes1 <==> h in nodes2 {
      TreeIsConnectedBlocks(p, ga, now, init, seen, nodes1, orphans1, h);
      TreeIsConnectedBlocks(p, ga, now, init, seen, nodes2, orphans2, h);
    }
    forall h | h in nodes1 && h in nodes2 ensures nodes1[h] == nodes2[h] {
      TreeDigest(p, nodes1, h);
      TreeDigest(p, nodes2, h);
      SameDigest(p, nodes1[h], nodes2[h]);
    }
  }

  lemma SettledTrees(p: Protocol, ga: Accounts, now: u64, init: map<Hash, Block>, seen: set<Block>,
                     nodes: map<Hash, Block>, orphans: Orphans)
    requires Settled(p, ga, now, init, seen, nodes, orphans)
    ensures Tree(p, nodes)
  {
  }

  lemma SameDigest(p: Protocol, a: Block, b: Block)
    requires HashLaw(p) && p.hash(a) == p.hash(b)
    ensures a == b
  {
  }
}
