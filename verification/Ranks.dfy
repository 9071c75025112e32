/** Fork choice by any strict rank of branches, such as cumulative work. */
module Ranks {
  import opened Types
  import opened Protocols
  import opened ForkTree

  /** `above(x, y)`: branch `x` beats branch `y`. */
  type Rank = (seq<Block>, seq<Block>) -> bool

  /** A strict order in which branches that do not beat each other are tied. */
  ghost predicate StrictRank(above: Rank)
  {
    && (forall x :: !above(x, x))
    && (forall x, y, z :: above(x, y) && above(y, z) ==> above(x, z))
    && (forall x, y, z {:trigger above(x, z), above(x, y)} {:trigger above(x, z), above(y, z)} ::
          above(x, z) ==> above(x, y) || above(y, z))
  }

  ghost predicate Beats(p: Protocol, above: Rank, nodes: map<Hash, Block>, h: Hash, k: Hash)
    requires Tree(p, nodes) && h in nodes && k in nodes
  {
    above(Branch(p, nodes, h), Branch(p, nodes, k))
  }

  /** The best tip moves exactly to branches that beat it. */
  ghost predicate RankRule(p: Protocol, above: Rank)
  {
    && StrictRank(above)
    && forall nodes, best, h {:trigger p.prefers(nodes, best, h)} :: Tree(p, nodes) && best in nodes && h in nodes ==>
         (p.prefers(nodes, best, h) <==> Beats(p, above, nodes, h, best))
  }

  /** No branch beats the best one, and the best one beats every part of itself. */
  ghost predicate TopRanked(p: Protocol, above: Rank, fc: ForkChoice)
  {
    && Tree(p, fc.nodes) && fc.best in fc.nodes
    && (forall h :: h in fc.nodes ==> !Beats(p, above, fc.nodes, h, fc.best))
    && LastOnTop(above, Branch(p, fc.nodes, fc.best))
  }

  ghost predicate LastOnTop(above: Rank, br: seq<Block>)
  {
    forall i :: 0 < i < |br| ==> above(br, br[..i])
  }

  // ----- Two ranks -----

  /** Cumulative work of a branch. */
  ghost function Weight(work: Block -> nat, br: seq<Block>): (r: nat)
  {
    if br == [] then 0 else Weight(work, br[..|br| - 1]) + work(br[|br| - 1])
  }

  ghost function Heavier(work: Block -> nat): (r: Rank)
  {
    (x: seq<Block>, y: seq<Block>) => Weight(work, x) > Weight(work, y)
  }

  ghost function TipNumber(p: Protocol, br: seq<Block>): (r: nat)
  {
    if br == [] then 0 else p.hash(br[|br| - 1])
  }

  /** More work wins, and among equals the smaller tip digest. */
  ghost function HeavierOrSmaller(p: Protocol, work: Block -> nat): (r: Rank)
  {
    (x: seq<Block>, y: seq<Block>) =>
      Weight(work, x) > Weight(work, y) || (Weight(work, x) == Weight(work, y) && TipNumber(p, x) < TipNumber(p, y))
  }

  lemma WorkIsRank(p: Protocol, work: Block -> nat)
    ensures StrictRank(Heavier(work)) && StrictRank(HeavierOrSmaller(p, work))
  {
    hide Weight, TipNumber;
  }

  /** The tie-break leaves no ties between different blocks of a tree. */
  lemma TieBreakDecides(p: Protocol, work: Block -> nat, nodes: map<Hash, Block>, h: Hash, k: Hash)
    requires Tree(p, nodes) && h in nodes && k in nodes && h != k
    ensures var above := HeavierOrSmaller(p, work); Beats(p, above, nodes, h, k) || Beats(p, above, nodes, k, h)
  {
    hide Weight;
    TipOfBranch(p, nodes, h);
    TipOfBranch(p, nodes, k);
  }

  lemma TipOfBranch(p: Protocol, nodes: map<Hash, Block>, h: Hash)
    requires Tree(p, nodes) && h in nodes
    ensures TipNumber(p, Branch(p, nodes, h)) == h
  {
    TreeDigest(p, nodes, h);
  }

  // ----- Growing trees -----

  /** Every part of a branch is a branch of the tree. */
  lemma PrefixIsBranch(p: Protocol, nodes: map<Hash, Block>, h: Hash, i: nat)
    requires Tree(p, nodes) && h in nodes && 0 < i <= nodes[h].height
    ensures var below := p.hash(Branch(p, nodes, h)[i - 1]);
            below in nodes && nodes[below].height == i - 1 && Branch(p, nodes, h)[..i] == Branch(p, nodes, below)
  {
    BranchStep(p, nodes, h);
    BranchElements(p, nodes, h, i - 1);
  }

  lemma InsertKeepsTop(p: Protocol, above: Rank, before: ForkChoice, after: ForkChoice)
    requires RankRule(p, above) && TopRanked(p, above, before) && InsertStep(p, before, after)
    ensures TopRanked(p, above, after)
  {
    var b :| Insert(p, before, b) == Ok(after);
    forall k | k in before.nodes ensures Branch(p, after.nodes, k) == Branch(p, before.nodes, k) {
      BranchStable(p, before.nodes, after.nodes, k);
    }
    hide RankRule, Tree, Branch;
    NewTipIsTop(p, above, before, after, p.hash(b));
  }

  lemma NewTipIsTop(p: Protocol, above: Rank, before: ForkChoice, after: ForkChoice, h: Hash)
    requires RankRule(p, above) && TopRanked(p, above, before) && Tree(p, after.nodes)
    requires h !in before.nodes && h in after.nodes && after.nodes.Keys == before.nodes.Keys + {h}
    requires after.best == if p.prefers(after.nodes, before.best, h) then h else before.best
    requires forall k :: k in before.nodes ==> Branch(p, after.nodes, k) == Branch(p, before.nodes, k)
    ensures TopRanked(p, above, after)
  {
    hide Tree, Branch;
    if after.best == h {
      var br := Branch(p, after.nodes, h);
      assert Beats(p, above, after.nodes, h, before.best);
      forall k | k in after.nodes ensures !Beats(p, above, after.nodes, k, h) {
        if k != h { assert !Beats(p, above, before.nodes, k, before.best); }
      }
      forall i | 0 < i < |br| ensures above(br, br[..i]) {
        PrefixIsBranch(p, after.nodes, h, i);
        var below := p.hash(br[i - 1]);
        assert below in before.nodes && !Beats(p, above, before.nodes, below, before.best);
      }
    }
  }

  /** Insertions keep the best tip on top. */
  lemma {:induction false} PathKeepsTop(p: Protocol, above: Rank, path: seq<ForkChoice>, before: ForkChoice,
                                        after: ForkChoice)
    requires RankRule(p, above) && TopRanked(p, above, before) && InsertPath(p, path, before, after)
    ensures TopRanked(p, above, after)
  {
    hide RankRule, TopRanked, InsertStep;
    var n := |path| - 1;
    if n > 0 {
      PathKeepsTop(p, above, path[..n], before, path[n - 1]);
      InsertKeepsTop(p, above, path[n - 1], path[n]);
    }
  }

  /** Over any run of accepted blocks no branch beats the active one. */
  lemma AdvancedKeepsTop(p: Protocol, above: Rank, before: ForkChoice, after: ForkChoice)
    requires RankRule(p, above) && TopRanked(p, above, before) && Advanced(p, before, after)
    ensures TopRanked(p, above, after)
  {
    hide RankRule, TopRanked, InsertPath;
    var path: seq<ForkChoice> :| InsertPath(p, path, before, after);
    PathKeepsTop(p, above, path, before, after);
  }

  /** If nothing inserted beats the best tip, it stays. */
  lemma {:induction false} PathKeepsBest(p: Protocol, above: Rank, path: seq<ForkChoice>, before: ForkChoice,
                                         after: ForkChoice)
    requires RankRule(p, above) && InsertPath(p, path, before, after) && Tree(p, after.nodes)
    requires before.best in before.nodes && before.best in after.nodes
    requires forall h :: h in after.nodes ==> !Beats(p, above, after.nodes, h, before.best)
    ensures after.best == before.best
  {
    hide Tree, Branch, StrictRank;
    var n := |path| - 1;
    if n > 0 {
      var last := path[n - 1];
      assert InsertStep(p, last, path[n]);
      PathGrows(p, path[..n], before, last);
      var b :| Insert(p, last, b) == Ok(after);
      forall h | h in last.nodes ensures Branch(p, last.nodes, h) == Branch(p, after.nodes, h) {
        BranchStable(p, last.nodes, after.nodes, h);
      }
      PathKeepsBest(p, above, path[..n], before, last);
    }
  }

  lemma AdvancedKeepsBest(p: Protocol, above: Rank, before: ForkChoice, after: ForkChoice)
    requires RankRule(p, above) && Advanced(p, before, after) && Tree(p, after.nodes)
    requires before.best in before.nodes && before.best in after.nodes
    requires forall h :: h in after.nodes ==> !Beats(p, above, after.nodes, h, before.best)
    ensures after.best == before.best
  {
    hide RankRule, InsertPath, Tree, Beats;
    var path: seq<ForkChoice> :| InsertPath(p, path, before, after);
    PathKeepsBest(p, above, path, before, after);
  }
}
