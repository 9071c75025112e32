/** The block tree: every accepted block by digest, and the chosen tip. */
module ForkTree {
  import opened Types
  import opened Protocols

  datatype ForkChoice = ForkChoice(nodes: map<Hash, Block>, best: Hash)

  /** `h` is stored under its digest and, above the root, right on top of its parent. */
  ghost predicate Linked(p: Protocol, nodes: map<Hash, Block>, h: Hash)
    requires h in nodes
  {
    && p.hash(nodes[h]) == h
    && (nodes[h].height > 0 ==>
          nodes[h].prev in nodes && nodes[nodes[h].prev].height + 1 == nodes[h].height)
  }

  predicate IsRoot(nodes: map<Hash, Block>, h: Hash)
  {
    h in nodes && nodes[h].height == 0
  }

  /** A parent-closed tree with one root. */
  ghost predicate Tree(p: Protocol, nodes: map<Hash, Block>)
  {
    && (forall h {:trigger Linked(p, nodes, h)} :: h in nodes ==> Linked(p, nodes, h))
    && (forall h, k {:trigger IsRoot(nodes, h), IsRoot(nodes, k)} :: IsRoot(nodes, h) && IsRoot(nodes, k) ==> h == k)
  }

  /** The blocks from the root to `h`. */
  ghost function Branch(p: Protocol, nodes: map<Hash, Block>, h: Hash): (br: seq<Block>)
    requires Tree(p, nodes) && h in nodes
    ensures |br| == nodes[h].height + 1 && br[|br| - 1] == nodes[h]
    decreases nodes[h].height
  {
    assert Linked(p, nodes, h);
    if nodes[h].height == 0 then [nodes[h]] else Branch(p, nodes, nodes[h].prev) + [nodes[h]]
  }

  /** Every block is stored under its own digest. */
  lemma TreeDigest(p: Protocol, nodes: map<Hash, Block>, h: Hash)
    requires Tree(p, nodes) && h in nodes
    ensures p.hash(nodes[h]) == h
  {
    assert Linked(p, nodes, h);
  }

  /** A branch is its parent's branch plus the block itself. */
  lemma BranchStep(p: Protocol, nodes: map<Hash, Block>, h: Hash)
    requires Tree(p, nodes) && h in nodes && nodes[h].height > 0
    ensures nodes[h].prev in nodes && nodes[nodes[h].prev].height + 1 == nodes[h].height && p.hash(nodes[h]) == h
    ensures Branch(p, nodes, h) == Branch(p, nodes, nodes[h].prev) + [nodes[h]]
  {
    assert Linked(p, nodes, h);
  }

  lemma {:induction false} BranchElements(p: Protocol, nodes: map<Hash, Block>, h: Hash, i: nat)
    requires Tree(p, nodes) && h in nodes && i <= nodes[h].height
    ensures var b := Branch(p, nodes, h)[i];
            b.height == i && p.hash(b) in nodes && nodes[p.hash(b)] == b
            && Branch(p, nodes, p.hash(b)) == Branch(p, nodes, h)[..i + 1]
    decreases nodes[h].height
  {
    assert Linked(p, nodes, h);
    if i < nodes[h].height {
      BranchElements(p, nodes, nodes[h].prev, i);
      assert Branch(p, nodes, h)[..i + 1] == Branch(p, nodes, nodes[h].prev)[..i + 1];
    } else {
      assert Branch(p, nodes, h)[..i + 1] == Branch(p, nodes, h);
    }
  }

  /** Each block of a branch sits on the one before it, whose branch is the rest. */
  lemma BranchLink(p: Protocol, nodes: map<Hash, Block>, h: Hash, i: nat)
    requires Tree(p, nodes) && h in nodes && 0 < i <= nodes[h].height
    ensures var br := Branch(p, nodes, h);
            br[i].prev == p.hash(br[i - 1]) && br[i].prev in nodes && Branch(p, nodes, br[i].prev) == br[..i]
  {
    var br := Branch(p, nodes, h);
    BranchElements(p, nodes, h, i);
    BranchElements(p, nodes, h, i - 1);
    BranchStep(p, nodes, p.hash(br[i]));
    var below := Branch(p, nodes, br[i].prev);
    assert br[..i + 1] == below + [br[i]];
    assert br[..i] == below && below[i - 1] == br[i - 1];
    assert Linked(p, nodes, br[i].prev);
  }

  /** Where two trees agree, so do their branches. */
  lemma {:induction false} BranchStable(p: Protocol, small: map<Hash, Block>, large: map<Hash, Block>, h: Hash)
    requires Tree(p, small) && Tree(p, large) && h in small
    requires forall k :: k in small ==> k in large && large[k] == small[k]
    ensures Branch(p, large, h) == Branch(p, small, h)
    decreases small[h].height
  {
    assert Linked(p, small, h);
    if small[h].height > 0 {
      BranchStable(p, small, large, small[h].prev);
    }
  }

  /** Adds a block; the new block either becomes the best tip or leaves it alone. */
  function Insert(p: Protocol, fc: ForkChoice, b: Block): (r: Result<ForkChoice, ForkChoiceError>)
  {
    var h := p.hash(b);
    if h in fc.nodes then Err(DuplicateBlock)
    else if b.height > 0 && b.prev !in fc.nodes then Err(MissingParent)
    else
      var nodes := fc.nodes[h := b];
      Ok(ForkChoice(nodes, if p.prefers(nodes, fc.best, h) then h else fc.best))
  }

  lemma InsertKeepsTree(p: Protocol, nodes: map<Hash, Block>, b: Block)
    requires Tree(p, nodes) && p.hash(b) !in nodes
    requires b.height > 0 && b.prev in nodes && nodes[b.prev].height + 1 == b.height
    ensures Tree(p, nodes[p.hash(b) := b])
    ensures Branch(p, nodes[p.hash(b) := b], p.hash(b)) == Branch(p, nodes, b.prev) + [b]
  {
    var h := p.hash(b);
    var larger := nodes[h := b];
    forall k | k in larger ensures Linked(p, larger, k) {
      if k in nodes { assert Linked(p, nodes, k); }
    }
    assert forall k :: IsRoot(larger, k) ==> IsRoot(nodes, k);
    BranchStable(p, nodes, larger, b.prev);
  }

  /** Digests from `tip` down to the root; empty for an unknown tip. */
  function AncestorHashes(p: Protocol, nodes: map<Hash, Block>, tip: Hash): (r: seq<Hash>)
    requires Tree(p, nodes)
    decreases if tip in nodes then nodes[tip].height else 0
  {
    if tip !in nodes then []
    else
      assert Linked(p, nodes, tip);
      if nodes[tip].height == 0 then [tip] else [tip] + AncestorHashes(p, nodes, nodes[tip].prev)
  }

  /** Ancestors are the branch read backwards. */
  lemma {:induction false} AncestorsReverseBranch(p: Protocol, nodes: map<Hash, Block>, tip: Hash)
    requires Tree(p, nodes) && tip in nodes
    ensures var ancestors := AncestorHashes(p, nodes, tip); var br := Branch(p, nodes, tip);
            |ancestors| == |br| && forall i :: 0 <= i < |br| ==> ancestors[i] == p.hash(br[|br| - 1 - i])
    decreases nodes[tip].height
  {
    assert Linked(p, nodes, tip);
    if nodes[tip].height > 0 {
      AncestorsReverseBranch(p, nodes, nodes[tip].prev);
    }
  }

  /** Blocks above `ancestor` up to `tip`, oldest first; none if `ancestor` is not below `tip`. */
  function BranchFromAncestor(p: Protocol, nodes: map<Hash, Block>, ancestor: Hash, tip: Hash): (r: Option<seq<Block>>)
    requires Tree(p, nodes)
    decreases if tip in nodes then nodes[tip].height else 0
  {
    if tip !in nodes then None
    else if tip == ancestor then Some([])
    else
      assert Linked(p, nodes, tip);
      if nodes[tip].height == 0 then None
      else
        match BranchFromAncestor(p, nodes, ancestor, nodes[tip].prev)
        case None => None
        case Some(below) => Some(below + [nodes[tip]])
  }

  lemma {:induction false} BranchAboveAncestor(p: Protocol, nodes: map<Hash, Block>, tip: Hash, i: nat)
    requires Tree(p, nodes) && tip in nodes && i <= nodes[tip].height
    ensures var br := Branch(p, nodes, tip);
            BranchFromAncestor(p, nodes, p.hash(br[i]), tip) == Some(br[i + 1..])
    decreases nodes[tip].height
  {
    var br := Branch(p, nodes, tip);
    assert Linked(p, nodes, tip);
    BranchElements(p, nodes, tip, i);
    if i < nodes[tip].height {
      var parent := Branch(p, nodes, nodes[tip].prev);
      BranchAboveAncestor(p, nodes, nodes[tip].prev, i);
      assert br[i] == parent[i];
      assert br[i + 1..] == parent[i + 1..] + [nodes[tip]];
      assert nodes[p.hash(br[i])].height != nodes[tip].height;
    } else {
      assert p.hash(br[i]) == tip && br[i + 1..] == [];
    }
  }

  /** The `i`-th ancestor of a tip is the block `i` places below it. */
  lemma AncestorAt(p: Protocol, nodes: map<Hash, Block>, tip: Hash, i: nat)
    requires Tree(p, nodes) && tip in nodes && i <= nodes[tip].height
    ensures var ancestors := AncestorHashes(p, nodes, tip); var br := Branch(p, nodes, tip);
            && |ancestors| == |br| && ancestors[i] in nodes
            && nodes[ancestors[i]] == br[|br| - 1 - i] && nodes[ancestors[i]].height == nodes[tip].height - i
  {
    AncestorsReverseBranch(p, nodes, tip);
    BranchElements(p, nodes, tip, nodes[tip].height - i);
  }

  /** A branch has one ancestor at each height. */
  lemma OneAtHeight(p: Protocol, nodes: map<Hash, Block>, tip: Hash, i: nat)
    requires Tree(p, nodes) && tip in nodes && i <= nodes[tip].height
    ensures var ancestors := AncestorHashes(p, nodes, tip);
            && i < |ancestors|
            && (forall a :: a in ancestors && a in nodes && nodes[a].height + i == nodes[tip].height ==>
                  a == ancestors[i])
  {
    var ancestors := AncestorHashes(p, nodes, tip);
    AncestorAt(p, nodes, tip, i);
    forall a | a in ancestors && a in nodes && nodes[a].height + i == nodes[tip].height ensures a == ancestors[i] {
      var k :| 0 <= k < |ancestors| && ancestors[k] == a;
      AncestorsReverseBranch(p, nodes, tip);
      AncestorAt(p, nodes, tip, k);
    }
  }

  /** All branches start at the one root. */
  lemma SharedRoot(p: Protocol, nodes: map<Hash, Block>, a: Hash, b: Hash)
    requires Tree(p, nodes) && a in nodes && b in nodes
    ensures var x, y := AncestorHashes(p, nodes, a), AncestorHashes(p, nodes, b);
            |x| > 0 && |y| > 0 && x[|x| - 1] == y[|y| - 1]
  {
    AncestorAt(p, nodes, a, nodes[a].height);
    AncestorAt(p, nodes, b, nodes[b].height);
    var x, y := AncestorHashes(p, nodes, a), AncestorHashes(p, nodes, b);
    assert IsRoot(nodes, x[|x| - 1]) && IsRoot(nodes, y[|y| - 1]);
  }

  /** A branch exists above every ancestor. */
  lemma AncestorHasBranch(p: Protocol, nodes: map<Hash, Block>, tip: Hash, ancestor: Hash)
    requires Tree(p, nodes) && tip in nodes && ancestor in AncestorHashes(p, nodes, tip)
    ensures BranchFromAncestor(p, nodes, ancestor, tip).Some?
  {
    AncestorsReverseBranch(p, nodes, tip);
    var ancestors, br := AncestorHashes(p, nodes, tip), Branch(p, nodes, tip);
    var i :| 0 <= i < |ancestors| && ancestors[i] == ancestor;
    BranchAboveAncestor(p, nodes, tip, |br| - 1 - i);
  }

  ghost predicate Grows(small: map<Hash, Block>, large: map<Hash, Block>)
  {
    forall h :: h in small ==> h in large && large[h] == small[h]
  }

  /** One insertion into a tree. */
  ghost predicate InsertStep(p: Protocol, before: ForkChoice, after: ForkChoice)
  {
    Tree(p, before.nodes) && Tree(p, after.nodes) && exists b :: Insert(p, before, b) == Ok(after)
  }

  ghost predicate InsertPath(p: Protocol, path: seq<ForkChoice>, before: ForkChoice, after: ForkChoice)
  {
    && |path| > 0 && path[0] == before && path[|path| - 1] == after
    && (forall i :: 0 < i < |path| ==> InsertStep(p, path[i - 1], path[i]))
  }

  /** `after` was reached from `before` by insertions. */
  ghost predicate Advanced(p: Protocol, before: ForkChoice, after: ForkChoice)
  {
    exists path: seq<ForkChoice> :: InsertPath(p, path, before, after)
  }

  lemma AdvancedReflexive(p: Protocol, fc: ForkChoice)
    ensures Advanced(p, fc, fc)
  {
    assert InsertPath(p, [fc], fc, fc);
  }

  lemma InsertAdvances(p: Protocol, before: ForkChoice, b: Block, after: ForkChoice)
    requires Tree(p, before.nodes) && Tree(p, after.nodes) && Insert(p, before, b) == Ok(after)
    ensures Advanced(p, before, after)
  {
    assert InsertStep(p, before, after);
    assert InsertPath(p, [before, after], before, after);
  }

  lemma AdvancedTransitive(p: Protocol, a: ForkChoice, b: ForkChoice, c: ForkChoice)
    requires Advanced(p, a, b) && Advanced(p, b, c)
    ensures Advanced(p, a, c)
  {
    var first: seq<ForkChoice> :| InsertPath(p, first, a, b);
    var second: seq<ForkChoice> :| InsertPath(p, second, b, c);
    var path := first + second[1..];
    forall i | 0 < i < |path| ensures InsertStep(p, path[i - 1], path[i]) {
      if i >= |first| {
        assert path[i] == second[i - |first| + 1];
        assert path[i - 1] == second[i - |first|];
      }
    }
    assert InsertPath(p, path, a, c);
  }

  /** Insertions only add blocks, and the best tip stays or moves to an added block. */
  lemma AdvancedGrows(p: Protocol, before: ForkChoice, after: ForkChoice)
    requires Advanced(p, before, after)
    ensures Grows(before.nodes, after.nodes)
    ensures after.best == before.best || after.best !in before.nodes
    ensures before.best in before.nodes ==> after.best in after.nodes
  {
    var path: seq<ForkChoice> :| InsertPath(p, path, before, after);
    PathGrows(p, path, before, after);
  }

  lemma {:induction false} PathGrows(p: Protocol, path: seq<ForkChoice>, before: ForkChoice, after: ForkChoice)
    requires InsertPath(p, path, before, after)
    ensures Grows(before.nodes, after.nodes)
    ensures after.best == before.best || after.best !in before.nodes
    ensures before.best in before.nodes ==> after.best in after.nodes
  {
    var n := |path| - 1;
    if n > 0 {
      assert InsertStep(p, path[n - 1], path[n]);
      PathGrows(p, path[..n], before, path[n - 1]);
    }
  }
}
