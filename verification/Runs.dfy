/** Whole runs of a node. */
module Runs {
  import opened Types
  import opened Protocols
  import opened Ordered
  import opened ForkTree
  import opened Replays
  import opened Consistency
  import opened Orphanage
  import opened Drain
  import opened Delivery
  import opened History
  import opened Ranks
  import opened Nodes

  // ----- Arbitrary runs -----

  /** Everything other threads do to a node between two of its locks. */
  datatype Event =
    | Deliver(block: Block, at: u64)
    | Submit(tx: Tx, at: u64)
    | PrunePool(at: u64)
    | DrainRequests(at: u64)
    | RetryRequest(hash: Hash, at: u64)
    | Flush

  /** The chain part of a node's state. */
  datatype State = State(fc: ForkChoice, orphans: Orphans)

  /** What one event does to tree and orphan pool; only deliveries change them. */
  ghost predicate EventStep(p: Protocol, ga: Accounts, e: Event, before: State, after: State, dropped: set<Hash>)
  {
    match e
    case Deliver(b, at) => DeliveryStep(p, ga, at, before.fc, before.orphans, b, after.fc, after.orphans, dropped)
    case _ => after == before && dropped == {}
  }

  /** `states` are the states of a run of `events`, and `lost` the blocks each event dropped. */
  ghost predicate Run(p: Protocol, ga: Accounts, events: seq<Event>, states: seq<State>, lost: seq<set<Hash>>)
  {
    && |states| == |events| + 1 && |lost| == |events|
    && (forall i :: 0 <= i < |events| ==> EventStep(p, ga, events[i], states[i], states[i + 1], lost[i]))
  }

  ghost predicate RunBetween(p: Protocol, ga: Accounts, events: seq<Event>, states: seq<State>, lost: seq<set<Hash>>,
                             first: State, last: State)
  {
    Run(p, ga, events, states, lost) && states[0] == first && states[|events|] == last
  }

  /** No event dropped a block. */
  ghost predicate Lossless(lost: seq<set<Hash>>)
  {
    forall i :: 0 <= i < |lost| ==> lost[i] == {}
  }

  lemma RunAppend(p: Protocol, ga: Accounts, events: seq<Event>, states: seq<State>, lost: seq<set<Hash>>, e: Event,
                  after: State, dropped: set<Hash>)
    requires Run(p, ga, events, states, lost) && EventStep(p, ga, e, states[|events|], after, dropped)
    ensures Run(p, ga, events + [e], states + [after], lost + [dropped])
  {
    hide EventStep;
  }

  lemma RunPrefix(p: Protocol, ga: Accounts, events: seq<Event>, states: seq<State>, lost: seq<set<Hash>>, n: nat)
    requires Run(p, ga, events, states, lost) && n <= |events|
    ensures Run(p, ga, events[..n], states[..n + 1], lost[..n])
  {
    hide EventStep;
  }

  /** A run only ever inserts blocks on known parents. */
  lemma {:induction false} RunAdvances(p: Protocol, ga: Accounts, events: seq<Event>, states: seq<State>,
                                       lost: seq<set<Hash>>)
    requires Run(p, ga, events, states, lost)
    ensures Advanced(p, states[0].fc, states[|events|].fc)
  {
    hide Advanced, Delivered, DropsJustified;
    var n := |events|;
    AdvancedReflexive(p, states[0].fc);
    if n > 0 {
      RunPrefix(p, ga, events, states, lost, n - 1);
      RunAdvances(p, ga, events[..n - 1], states[..n], lost[..n - 1]);
      assert EventStep(p, ga, events[n - 1], states[n - 1], states[n], lost[n - 1]);
      if events[n - 1].Deliver? { AdvancedTransitive(p, states[0].fc, states[n - 1].fc, states[n].fc); }
    }
  }

  method SubmitTo(node: Node, t: Tx, at: u64)
    requires node.Valid()
    modifies node.mempool
    ensures node.Valid()
  {
    hide Consistent, Lawful, AtRest, QueueOk, Node.Mirrored;
    var _ := node.SubmitTransaction(t, at);
  }

  method PrunePoolOf(node: Node, at: u64)
    requires node.Valid()
    modifies node.mempool
    ensures node.Valid()
  {
    hide Consistent, Lawful, AtRest, QueueOk;
    var _ := node.mempool.PruneExpired(at);
  }

  method DrainRequestsOf(node: Node, at: u64)
    requires node.Valid()
    modifies node`requests, node`requested, node`retryAt
    ensures node.Valid()
  {
    hide Node.Core, AtRest, QueueOk;
    var _ := node.DrainMissingParentRequests(at);
  }

  method RetryRequestOf(node: Node, h: Hash, at: u64)
    requires node.Valid()
    modifies node`requests, node`requested, node`retryAt
    ensures node.Valid()
  {
    hide Node.Core, AtRest, QueueOk;
    node.RetryMissingParentRequest(h, at);
  }

  method FlushOf(node: Node)
    requires node.Valid()
    modifies node.storage
    ensures node.Valid()
  {
    hide Consistent, Lawful, AtRest, QueueOk, Node.Mirrored;
    node.FlushToStorage();
  }

  method Perform(node: Node, e: Event) returns (ghost dropped: set<Hash>)
    requires node.Valid()
    modifies node`ledger, node`fc, node`orphans, node`children, node`requests, node`requested, node`retryAt
    modifies node.mempool, node.cache, node.storage
    ensures node.Valid()
    ensures EventStep(node.p, node.genesisAccounts, e, old(State(node.fc, node.orphans)), State(node.fc, node.orphans),
                      dropped)
  {
    hide DeliveryStep, KnownParentVerdict, Node.Core, Node.Orphaned;
    dropped := {};
    match e {
      case Deliver(b, at) =>
        var outcome;
        outcome, dropped := node.ApplyBlock(b, at);
      case Submit(t, at) => SubmitTo(node, t, at);
      case PrunePool(at) => PrunePoolOf(node, at);
      case DrainRequests(at) => DrainRequestsOf(node, at);
      case RetryRequest(h, at) => RetryRequestOf(node, h, at);
      case Flush => FlushOf(node);
    }
  }

  /** Whole runs: every mix of operations at any clock readings keeps the node valid. */
  method PerformAll(node: Node, events: seq<Event>) returns (ghost states: seq<State>, ghost lost: seq<set<Hash>>)
    requires node.Valid()
    modifies node`ledger, node`fc, node`orphans, node`children, node`requests, node`requested, node`retryAt
    modifies node.mempool, node.cache, node.storage
    ensures node.Valid()
    ensures RunBetween(node.p, node.genesisAccounts, events, states, lost, old(State(node.fc, node.orphans)),
                       State(node.fc, node.orphans))
    ensures Advanced(node.p, old(node.fc), node.fc)
  {
    hide Advanced, EventStep, Node.Core, Node.Orphaned;
    states, lost := [State(node.fc, node.orphans)], [];
    for i := 0 to |events|
      invariant node.Valid()
      invariant Run(node.p, node.genesisAccounts, events[..i], states, lost)
      invariant states[0] == old(State(node.fc, node.orphans)) && states[i] == State(node.fc, node.orphans)
    {
      ghost var dropped := Perform(node, events[i]);
      RunAppend(node.p, node.genesisAccounts, events[..i], states, lost, events[i], State(node.fc, node.orphans),
                dropped);
      assert events[..i + 1] == events[..i] + [events[i]];
      states, lost := states + [State(node.fc, node.orphans)], lost + [dropped];
    }
    assert events[..|events|] == events;
    RunAdvances(node.p, node.genesisAccounts, events, states, lost);
  }

  // ----- Deliveries -----

  /** The blocks a node already holds as orphans. */
  ghost function Waited(orphans: Orphans): (r: set<Block>)
  {
    set h | h in orphans :: orphans[h].block
  }

  function BlockSet(blocks: seq<Block>): (r: set<Block>)
  {
    set b | b in blocks
  }

  /** Deliveries of a list of blocks at a fixed clock. */
  function Deliveries(blocks: seq<Block>, now: u64): (r: seq<Event>)
    ensures |r| == |blocks| && forall i :: 0 <= i < |blocks| ==> r[i] == Deliver(blocks[i], now)
  {
    seq(|blocks|, i requires 0 <= i < |blocks| => Deliver(blocks[i], now))
  }

  ghost predicate SettledState(p: Protocol, ga: Accounts, now: u64, init: map<Hash, Block>, seen: set<Block>, s: State)
  {
    Settled(p, ga, now, init, seen, s.fc.nodes, s.orphans)
  }

  /** After a run of deliveries that dropped nothing, the tree is settled for the blocks delivered. */
  lemma {:induction false} RunSettles(p: Protocol, ga: Accounts, blocks: seq<Block>, now: u64, states: seq<State>,
                                      lost: seq<set<Hash>>, init: map<Hash, Block>, seen: set<Block>)
    requires HashLaw(p) && Run(p, ga, Deliveries(blocks, now), states, lost) && Lossless(lost)
    requires SettledState(p, ga, now, init, seen, states[0])
    ensures SettledState(p, ga, now, init, seen + BlockSet(blocks), states[|blocks|])
  {
    hide Settled, Delivered, DropsJustified, Advanced, HashLaw;
    var n := |blocks|;
    if n == 0 {
      assert seen + BlockSet(blocks) == seen;
    } else {
      var m := n - 1;
      RunPrefix(p, ga, Deliveries(blocks, now), states, lost, m);
      assert Deliveries(blocks, now)[..m] == Deliveries(blocks[..m], now);
      RunSettles(p, ga, blocks[..m], now, states[..n], lost[..m], init, seen);
      assert EventStep(p, ga, Deliver(blocks[m], now), states[m], states[n], lost[m]);
      SettledStep(p, ga, now, init, seen + BlockSet(blocks[..m]), states[m].fc.nodes, states[m].orphans, blocks[m],
                  states[n].fc.nodes, states[n].orphans);
      BlockSetLast(blocks);
      assert seen + BlockSet(blocks) == (seen + BlockSet(blocks[..m])) + {blocks[m]};
    }
  }

  /** Delivers blocks in the given order at a fixed clock. If nothing is dropped on the way, the
      tree is the one determined by the set of blocks delivered or waiting. */
  method DeliverAll(node: Node, blocks: seq<Block>, now: u64)
    returns (ghost states: seq<State>, ghost lost: seq<set<Hash>>)
    requires node.Valid()
    modifies node`ledger, node`fc, node`orphans, node`children, node`requests, node`requested, node`retryAt
    modifies node.mempool, node.cache, node.storage
    ensures node.Valid() && Advanced(node.p, old(node.fc), node.fc)
    ensures RunBetween(node.p, node.genesisAccounts, Deliveries(blocks, now), states, lost,
                       old(State(node.fc, node.orphans)), State(node.fc, node.orphans))
    ensures Lossless(lost) ==>
              Settled(node.p, node.genesisAccounts, now, old(node.fc.nodes),
                      old(Waited(node.orphans)) + BlockSet(blocks), node.fc.nodes, node.orphans)
  {
    hide Settled, Advanced, Node.Core, Node.Orphaned, Run, Lossless;
    ghost var init, seen := node.fc.nodes, Waited(node.orphans);
    StartSettled(node, now);
    NodeFacts(node);
    states, lost := PerformAll(node, Deliveries(blocks, now));
    if Lossless(lost) { RunSettles(node.p, node.genesisAccounts, blocks, now, states, lost, init, seen); }
  }

  /** Delivers the same set of blocks, in two orders and with any repeats, to two nodes with the
      same tree and the same waiting blocks. If neither run drops a block, both end with the same
      tree, which holds exactly the blocks with a full and valid delivered ancestry. */
  method DeliverInTwoOrders(a: Node, b: Node, first: seq<Block>, second: seq<Block>, now: u64)
    returns (ghost statesA: seq<State>, ghost lostA: seq<set<Hash>>, ghost statesB: seq<State>,
             ghost lostB: seq<set<Hash>>)
    requires a.Valid() && b.Valid() && a != b && a.mempool != b.mempool && a.cache != b.cache && a.storage != b.storage
    requires a.p == b.p && a.genesisAccounts == b.genesisAccounts && a.genesisAccounts != map[]
    requires a.fc.nodes == b.fc.nodes && Waited(a.orphans) + BlockSet(first) == Waited(b.orphans) + BlockSet(second)
    modifies a`ledger, a`fc, a`orphans, a`children, a`requests, a`requested, a`retryAt, a.mempool, a.cache, a.storage
    modifies b`ledger, b`fc, b`orphans, b`children, b`requests, b`requested, b`retryAt, b.mempool, b.cache, b.storage
    ensures a.Valid() && b.Valid() && Advanced(a.p, old(a.fc), a.fc) && Advanced(b.p, old(b.fc), b.fc)
    ensures RunBetween(a.p, a.genesisAccounts, Deliveries(first, now), statesA, lostA,
                       old(State(a.fc, a.orphans)), State(a.fc, a.orphans))
    ensures RunBetween(b.p, b.genesisAccounts, Deliveries(second, now), statesB, lostB,
                       old(State(b.fc, b.orphans)), State(b.fc, b.orphans))
    ensures Lossless(lostA) && Lossless(lostB) ==> a.fc.nodes == b.fc.nodes
    ensures Lossless(lostA) && Lossless(lostB) ==>
              forall h :: h in a.fc.nodes <==>
                Reaches(a.p, a.genesisAccounts, now, old(a.fc.nodes), old(Waited(a.orphans)) + BlockSet(first), h)
  {
    hide Settled, Advanced, Node.Core, Node.Orphaned, Reaches, BlockSet, Waited, Run, Lossless;
    ghost var init, seen := a.fc.nodes, Waited(a.orphans) + BlockSet(first);
    NodeFacts(a);
    statesA, lostA := DeliverAll(a, first, now);
    statesB, lostB := DeliverAll(b, second, now);
    NodeFacts(a);
    NodeFacts(b);
    if Lossless(lostA) && Lossless(lostB) {
      OrderIndependence(a.p, a.genesisAccounts, now, init, seen, a.fc.nodes, a.orphans, b.fc.nodes, b.orphans);
      forall h ensures h in a.fc.nodes <==> Reaches(a.p, a.genesisAccounts, now, init, seen, h) {
        TreeIsConnectedBlocks(a.p, a.genesisAccounts, now, init, seen, a.fc.nodes, a.orphans, h);
      }
    }
  }

  /** The best tip beats every other block. */
  ghost predicate Untied(p: Protocol, above: Rank, fc: ForkChoice)
    requires Tree(p, fc.nodes) && fc.best in fc.nodes
  {
    forall h :: h in fc.nodes && h != fc.best ==> Beats(p, above, fc.nodes, fc.best, h)
  }

  /** Two nodes with the same tree whose tips nothing beats: neither tip beats the other, and unless
      another tip ties with them the ledgers are equal. */
  lemma SameTreeSameLedger(p: Protocol, above: Rank, ga: Accounts, l1: Ledger, fc1: ForkChoice, l2: Ledger,
                           fc2: ForkChoice)
    requires Consistent(p, ga, l1, fc1) && Consistent(p, ga, l2, fc2) && fc1.nodes == fc2.nodes
    requires TopRanked(p, above, fc1) && TopRanked(p, above, fc2)
    ensures !Beats(p, above, fc1.nodes, fc1.best, fc2.best) && !Beats(p, above, fc1.nodes, fc2.best, fc1.best)
    ensures l1 == l2 <==> fc1.best == fc2.best
    ensures Untied(p, above, fc1) ==> l1 == l2
  {
    hide Beats, AllReplay, Replay, Branch;
    ConsistentTip(p, ga, l1, fc1);
    ConsistentTip(p, ga, l2, fc2);
  }

  /** With ties broken by digest, two nodes with the same tree have the same ledger. */
  lemma TieBreakSameLedger(p: Protocol, work: Block -> nat, ga: Accounts, l1: Ledger, fc1: ForkChoice, l2: Ledger,
                           fc2: ForkChoice)
    requires Consistent(p, ga, l1, fc1) && Consistent(p, ga, l2, fc2) && fc1.nodes == fc2.nodes
    requires TopRanked(p, HeavierOrSmaller(p, work), fc1) && TopRanked(p, HeavierOrSmaller(p, work), fc2)
    ensures l1 == l2
  {
    hide Beats, AllReplay, Replay, Branch;
    SameTreeSameLedger(p, HeavierOrSmaller(p, work), ga, l1, fc1, l2, fc2);
    if fc1.best != fc2.best { TieBreakDecides(p, work, fc1.nodes, fc1.best, fc2.best); }
  }

  // ----- Checkable conditions under which nothing is dropped -----

  /** Where no reason to drop a block ever applies, nothing is lost. */
  lemma CalmRunIsLossless(p: Protocol, ga: Accounts, blocks: seq<Block>, now: u64, states: seq<State>,
                          lost: seq<set<Hash>>)
    requires Run(p, ga, Deliveries(blocks, now), states, lost)
    requires forall i :: 0 <= i < |blocks| ==> Calm(p, blocks[i], now, states[i], states[i + 1])
    ensures Lossless(lost)
  {
    hide Delivered, Advanced;
    forall i | 0 <= i < |blocks| ensures lost[i] == {} {
      assert EventStep(p, ga, Deliver(blocks[i], now), states[i], states[i + 1], lost[i]);
      assert Calm(p, blocks[i], now, states[i], states[i + 1]);
    }
  }

  /** No reason to drop a block applies at one step of a run. */
  ghost predicate Calm(p: Protocol, b: Block, now: u64, before: State, after: State)
  {
    forall h :: !DropReason(p, BestHeight(before.fc), MidTip(p, before.fc, b, after.fc), before.orphans, b, now, h)
  }

  /** Fewer than 1024 distinct blocks, all within 512 heights of a floor `low`. */
  ghost predicate Window(low: nat, seen: set<Block>)
  {
    |seen| < MAX_ORPHAN_BLOCKS && forall b :: b in seen ==> low <= b.height <= low + MAX_ORPHAN_HEIGHT_DISTANCE
  }

  /** Every orphan is one of the blocks seen and arrived now. */
  ghost predicate Recent(p: Protocol, seen: set<Block>, orphans: Orphans, now: u64)
  {
    forall h :: h in orphans ==>
        orphans[h].block in seen && orphans[h].receivedAt == now && p.hash(orphans[h].block) == h
  }

  lemma {:induction false} ImageSize(p: Protocol, keys: set<Hash>, seen: set<Block>)
    requires forall h :: h in keys ==> exists b :: b in seen && p.hash(b) == h
    ensures |keys| <= |seen|
  {
    if keys != {} {
      var h :| h in keys;
      var b :| b in seen && p.hash(b) == h;
      forall k | k in keys - {h} ensures exists c :: c in seen - {b} && p.hash(c) == k {
        var c :| c in seen && p.hash(c) == k;
        assert c in seen - {b};
      }
      ImageSize(p, keys - {h}, seen - {b});
    }
  }

  /** Inside the window no reason to drop a block ever applies. */
  lemma NothingDropped(p: Protocol, low: nat, tip: nat, mid: nat, seen: set<Block>, orphans: Orphans, b: Block,
                       now: u64, dropped: set<Hash>)
    requires Window(low, seen + {b}) && low <= tip && low <= mid && Recent(p, seen, orphans, now)
    requires DropsJustified(p, tip, mid, orphans, b, now, dropped)
    ensures dropped == {}
  {
    forall h | h in orphans.Keys ensures exists c :: c in seen + {b} && p.hash(c) == h {
      assert orphans[h].block in seen + {b};
    }
    ImageSize(p, orphans.Keys, seen + {b});
    forall h ensures !DropReason(p, tip, mid, orphans, b, now, h) {
      if h in orphans { assert orphans[h].block in seen + {b}; }
    }
  }

  lemma StaysRecent(p: Protocol, ga: Accounts, now: u64, seen: set<Block>, nodes0: map<Hash, Block>, orphans0: Orphans,
                    b: Block, nodes: map<Hash, Block>, orphans: Orphans)
    requires Recent(p, seen, orphans0, now) && Delivered(p, ga, now, nodes0, orphans0, b, nodes, orphans, {})
    ensures Recent(p, seen + {b}, orphans, now)
    ensures forall h :: h in nodes && h !in nodes0 ==> nodes[h] in seen + {b}
  {
    hide Tree, Accepted, Refused;
  }

  /** One delivery inside the window: nothing is dropped and the tip stays above the floor. */
  lemma WindowStep(p: Protocol, ga: Accounts, now: u64, low: nat, seen: set<Block>, before: State, b: Block,
                   after: State, dropped: set<Hash>)
    requires EventStep(p, ga, Deliver(b, now), before, after, dropped)
    requires Window(low, seen + {b}) && Recent(p, seen, before.orphans, now)
    requires before.fc.best in before.fc.nodes && low <= BestHeight(before.fc)
    ensures dropped == {} && Recent(p, seen + {b}, after.orphans, now)
    ensures after.fc.best in after.fc.nodes && low <= BestHeight(after.fc)
  {
    hide Delivered, DropsJustified, Advanced, Window, Recent;
    WindowHeights(low, seen + {b});
    assert b in seen + {b};
    NothingDropped(p, low, BestHeight(before.fc), MidTip(p, before.fc, b, after.fc), seen, before.orphans, b, now,
                   dropped);
    StaysRecent(p, ga, now, seen, before.fc.nodes, before.orphans, b, after.fc.nodes, after.orphans);
    AdvancedGrows(p, before.fc, after.fc);
  }

  lemma NothingRecent(p: Protocol, seen: set<Block>, now: u64)
    ensures Recent(p, seen, map[], now)
  {
  }

  lemma BlockSetLast(blocks: seq<Block>)
    requires blocks != []
    ensures BlockSet(blocks) == BlockSet(blocks[..|blocks| - 1]) + {blocks[|blocks| - 1]}
  {
    assert blocks == blocks[..|blocks| - 1] + [blocks[|blocks| - 1]];
  }

  /** Inside the window a run without orphans at the start drops nothing, whatever the order. */
  lemma {:induction false} WindowRunIsLossless(p: Protocol, ga: Accounts, blocks: seq<Block>, now: u64, low: nat,
                                               states: seq<State>, lost: seq<set<Hash>>)
    requires Run(p, ga, Deliveries(blocks, now), states, lost) && Window(low, BlockSet(blocks))
    requires states[0].orphans == map[] && states[0].fc.best in states[0].fc.nodes && low <= BestHeight(states[0].fc)
    ensures Lossless(lost) && Recent(p, BlockSet(blocks), states[|blocks|].orphans, now)
    ensures states[|blocks|].fc.best in states[|blocks|].fc.nodes && low <= BestHeight(states[|blocks|].fc)
  {
    hide EventStep, Window, BestHeight, Recent, BlockSet;
    var n := |blocks|;
    if n == 0 {
      NothingRecent(p, BlockSet(blocks), now);
    } else {
      var m := n - 1;
      BlockSetLast(blocks);
      WindowSubset(low, BlockSet(blocks[..m]), BlockSet(blocks));
      RunPrefix(p, ga, Deliveries(blocks, now), states, lost, m);
      assert Deliveries(blocks, now)[..m] == Deliveries(blocks[..m], now);
      WindowRunIsLossless(p, ga, blocks[..m], now, low, states[..n], lost[..m]);
      WindowStep(p, ga, now, low, BlockSet(blocks[..m]), states[m], blocks[m], states[n], lost[m]);
      assert lost == lost[..m] + [lost[m]];
    }
  }

  /** Delivers a window of blocks, in any order and with any repeats, to a node without orphans:
      nothing is dropped, so the tree is determined by the set of blocks. */
  method DeliverWindow(node: Node, blocks: seq<Block>, now: u64, ghost low: nat)
    requires node.Valid() && node.orphans == map[]
    requires Window(low, BlockSet(blocks)) && low <= node.TipHeight()
    modifies node`ledger, node`fc, node`orphans, node`children, node`requests, node`requested, node`retryAt
    modifies node.mempool, node.cache, node.storage
    ensures node.Valid()
    ensures Settled(node.p, node.genesisAccounts, now, old(node.fc.nodes), BlockSet(blocks), node.fc.nodes,
                    node.orphans)
  {
    hide Settled, Advanced, Node.Core, Node.Orphaned, Run, Lossless, Window, BlockSet;
    NodeFacts(node);
    assert Waited(node.orphans) + BlockSet(blocks) == BlockSet(blocks);
    ghost var states, lost := DeliverAll(node, blocks, now);
    WindowRunIsLossless(node.p, node.genesisAccounts, blocks, now, low, states, lost);
  }

  lemma WindowSubset(low: nat, small: set<Block>, large: set<Block>)
    requires Window(low, large) && small <= large
    ensures Window(low, small)
  {
    SubsetSize(small, large);
  }

  lemma WindowHeights(low: nat, seen: set<Block>)
    requires Window(low, seen)
    ensures forall b :: b in seen ==> low <= b.height
  {
  }

  /** What the node invariant says about its parts. */
  lemma NodeFacts(node: Node)
    requires node.Valid()
    ensures HashLaw(node.p) && ConsensusLaw(node.p) && Tree(node.p, node.fc.nodes)
    ensures Consistent(node.p, node.genesisAccounts, node.ledger, node.fc)
    ensures ParentsUnknown(node.fc.nodes, node.orphans)
    ensures node.fc.best in node.fc.nodes && node.TipHeight() == BestHeight(node.fc)
  {
    hide AllReplay, Replay, Branch;
    ConsistentTip(node.p, node.genesisAccounts, node.ledger, node.fc);
  }

  lemma StartSettled(node: Node, now: u64)
    requires node.Valid()
    ensures Settled(node.p, node.genesisAccounts, now, node.fc.nodes, Waited(node.orphans), node.fc.nodes, node.orphans)
  {
    hide Tree, Accepted, Refused;
    forall h | h in node.orphans
      ensures node.orphans[h].block in Waited(node.orphans) && node.p.hash(node.orphans[h].block) == h
    {
    }
  }
}
