/** Rebuilding the block tree from the stored blocks at start-up. */
module Indexing {
  import opened Types
  import opened Protocols
  import opened Ordered
  import opened ForkTree

  predicate LowerFirst(a: Block, b: Block) { a.height <= b.height }

  /** `fc` is a tree inside the stored tree `all`. */
  ghost predicate Within(p: Protocol, fc: ForkChoice, all: map<Hash, Block>)
  {
    Tree(p, fc.nodes) && Tree(p, all) && Grows(fc.nodes, all) && fc.best in fc.nodes
  }

  ghost predicate Stored(p: Protocol, all: map<Hash, Block>, b: Block)
  {
    p.hash(b) in all && all[p.hash(b)] == b
  }

  /** The root of the stored tree is in every tree inside it. */
  lemma {:induction false} RootWithin(p: Protocol, fc: ForkChoice, all: map<Hash, Block>, h: Hash, k: Hash)
    requires Within(p, fc, all) && IsRoot(all, h) && k in fc.nodes
    ensures h in fc.nodes
    decreases fc.nodes[k].height
  {
    assert Linked(p, fc.nodes, k);
    if fc.nodes[k].height == 0 {
      assert IsRoot(all, k);
    } else {
      RootWithin(p, fc, all, h, fc.nodes[k].prev);
    }
  }

  lemma InsertWithin(p: Protocol, fc: ForkChoice, all: map<Hash, Block>, b: Block)
    requires Within(p, fc, all) && Stored(p, all, b) && p.hash(b) !in fc.nodes
    ensures b.height > 0
    ensures b.prev in fc.nodes ==>
              Insert(p, fc, b).Ok? && Within(p, Insert(p, fc, b).value, all) && Advanced(p, fc, Insert(p, fc, b).value)
  {
    hide Advanced;
    assert Linked(p, all, p.hash(b));
    if b.height == 0 {
      RootWithin(p, fc, all, p.hash(b), fc.best);
    }
    if b.prev in fc.nodes {
      InsertKeepsTree(p, fc.nodes, b);
      InsertAdvances(p, fc, b, Insert(p, fc, b).value);
    }
  }

  /** Every new block of the tree is one of `blocks`. */
  ghost predicate GrewBy(p: Protocol, before: map<Hash, Block>, after: map<Hash, Block>, blocks: seq<Block>)
  {
    Grows(before, after) && forall h :: h in after && h !in before ==> after[h] in blocks && p.hash(after[h]) == h
  }

  /** All of `blocks` are stored in `all`, and the tree lies inside it. */
  ghost predicate Inside(p: Protocol, fc: ForkChoice, all: map<Hash, Block>, blocks: seq<Block>)
  {
    Within(p, fc, all) && forall b :: b in blocks ==> Stored(p, all, b)
  }

  /** One pass over the blocks not indexed yet. A pass without progress leaves only blocks whose
      parent is not indexed. Inside a stored tree every step inserts on a known parent. */
  method IndexPass(p: Protocol, fc0: ForkChoice, blocks: seq<Block>, ghost all: map<Hash, Block>)
    returns (fc: ForkChoice, remaining: seq<Block>, progressed: bool)
    ensures GrewBy(p, fc0.nodes, fc.nodes, blocks)
    ensures forall b :: b in blocks ==> p.hash(b) in fc.nodes || b in remaining
    ensures forall b :: b in remaining ==> b in blocks
    ensures |remaining| <= |blocks| && (progressed ==> |remaining| < |blocks|)
    ensures !progressed ==> fc == fc0 && forall b :: b in blocks ==> b.height > 0 && b.prev !in fc.nodes
    ensures Inside(p, fc0, all, blocks) ==> Within(p, fc, all) && Advanced(p, fc0, fc)
  {
    hide Within, Stored, Advanced;
    fc, remaining, progressed := fc0, [], false;
    AdvancedReflexive(p, fc);
    for i := 0 to |blocks|
      invariant GrewBy(p, fc0.nodes, fc.nodes, blocks)
      invariant Inside(p, fc0, all, blocks) ==> Within(p, fc, all) && Advanced(p, fc0, fc)
      invariant forall k :: 0 <= k < i ==> p.hash(blocks[k]) in fc.nodes || blocks[k] in remaining
      invariant forall b :: b in remaining ==> b in blocks
      invariant |remaining| <= i && (progressed ==> |remaining| < i)
      invariant !progressed ==>
                fc == fc0 && forall k :: 0 <= k < i ==> blocks[k].height > 0 && blocks[k].prev !in fc.nodes
    {
      var b := blocks[i];
      if p.hash(b) in fc.nodes {
        progressed := true;
      } else {
        if Inside(p, fc0, all, blocks) { InsertWithin(p, fc, all, b); }
        var inserted := Insert(p, fc, b);
        match inserted {
          case Ok(larger) =>
            if Inside(p, fc0, all, blocks) { AdvancedTransitive(p, fc0, fc, larger); }
            fc, progressed := larger, true;
          case Err(MissingParent) =>
            remaining := remaining + [b];
          case Err(DuplicateBlock) =>
            assert false; // checked above
        }
      }
    }
  }

  /** When nothing stored has its parent indexed, everything stored is indexed. */
  lemma {:induction false} NothingLeft(p: Protocol, fc: ForkChoice, all: map<Hash, Block>, remaining: seq<Block>,
                                       h: Hash)
    requires Within(p, fc, all) && h in all
    requires forall k :: k in all ==> k in fc.nodes || all[k] in remaining
    requires forall b :: b in remaining ==> b.prev !in fc.nodes
    ensures h in fc.nodes
    decreases all[h].height
  {
    assert Linked(p, all, h);
    if all[h].height == 0 {
      RootWithin(p, fc, all, h, fc.best);
    } else {
      NothingLeft(p, fc, all, remaining, all[h].prev);
    }
  }

  /** `blocks` holds every stored block that is not indexed yet. */
  ghost predicate Pending(p: Protocol, fc: ForkChoice, all: map<Hash, Block>, blocks: seq<Block>)
  {
    && (forall b :: b in blocks ==> Stored(p, all, b))
    && (forall k :: k in all ==> k in fc.nodes || all[k] in blocks)
  }

  lemma PendingStep(p: Protocol, fc0: ForkChoice, fc: ForkChoice, all: map<Hash, Block>, blocks: seq<Block>,
                    remaining: seq<Block>)
    requires Tree(p, all) && Pending(p, fc0, all, blocks) && Grows(fc0.nodes, fc.nodes)
    requires forall b :: b in blocks ==> p.hash(b) in fc.nodes || b in remaining
    requires forall b :: b in remaining ==> b in blocks
    ensures Pending(p, fc, all, remaining)
  {
    forall k | k in all ensures k in fc.nodes || all[k] in remaining {
      assert Linked(p, all, k);
    }
  }

  /** Every stored block is indexed, or its parent is not. */
  ghost predicate Exhausted(p: Protocol, nodes: map<Hash, Block>, stored: seq<Block>)
  {
    forall b :: b in stored ==> p.hash(b) in nodes || (b.height > 0 && b.prev !in nodes)
  }

  /** Every stored block is indexed or still listed. */
  ghost predicate Listed(p: Protocol, nodes: map<Hash, Block>, stored: seq<Block>, blocks: seq<Block>)
  {
    && (forall b :: b in stored ==> p.hash(b) in nodes || b in blocks)
    && (forall b :: b in blocks ==> b in stored)
  }

  /** Repeats passes until one makes no progress. Whatever is stored, nothing is left whose parent
      is indexed; if the stored blocks form a tree around the one at hand, everything is indexed. */
  method IndexAll(p: Protocol, fc0: ForkChoice, stored: seq<Block>, ghost all: map<Hash, Block>)
    returns (fc: ForkChoice)
    ensures GrewBy(p, fc0.nodes, fc.nodes, stored) && Exhausted(p, fc.nodes, stored)
    ensures Within(p, fc0, all) && Pending(p, fc0, all, stored) ==>
              Within(p, fc, all) && fc.nodes == all && Advanced(p, fc0, fc)
  {
    hide Advanced, Stored, Tree, Within;
    var blocks := SortBy(stored, LowerFirst);
    forall b ensures b in blocks <==> b in stored { SortMembers(stored, LowerFirst, b); }
    fc := fc0;
    AdvancedReflexive(p, fc);
    ghost var tree := Within(p, fc0, all) && Pending(p, fc0, all, stored);
    var progressed := true;
    while progressed
      invariant GrewBy(p, fc0.nodes, fc.nodes, stored) && Listed(p, fc.nodes, stored, blocks)
      invariant tree ==> Within(p, fc, all) && Advanced(p, fc0, fc) && Pending(p, fc, all, blocks)
      invariant !progressed ==> forall b :: b in blocks ==> b.height > 0 && b.prev !in fc.nodes
      decreases |blocks|, progressed
    {
      var larger, remaining, again := IndexPass(p, fc, blocks, all);
      if tree {
        AdvancedTransitive(p, fc0, fc, larger);
        WithinTree(p, fc, all);
        PendingStep(p, fc, larger, all, blocks, remaining);
      }
      GrewOn(p, fc0.nodes, fc.nodes, larger.nodes, stored, blocks);
      fc, blocks, progressed := larger, remaining, again;
    }
    if tree {
      forall h | h in all ensures h in fc.nodes { NothingLeft(p, fc, all, blocks, h); }
      WithinTree(p, fc, all);
      assert fc.nodes == all;
    }
  }

  lemma WithinTree(p: Protocol, fc: ForkChoice, all: map<Hash, Block>)
    requires Within(p, fc, all)
    ensures Tree(p, all) && Grows(fc.nodes, all)
  {
  }

  lemma GrewOn(p: Protocol, a: map<Hash, Block>, b: map<Hash, Block>, c: map<Hash, Block>, stored: seq<Block>,
               blocks: seq<Block>)
    requires GrewBy(p, a, b, stored) && GrewBy(p, b, c, blocks) && forall x :: x in blocks ==> x in stored
    ensures GrewBy(p, a, c, stored)
  {
  }
}
