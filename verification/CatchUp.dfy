/** Catching up with an honest peer: polls close every gap, and then reach the peer's tip. */
module CatchUp {
  import opened Types
  import opened Protocols
  import opened ForkTree
  import opened Consistency
  import opened Orphanage
  import opened Delivery
  import opened Ranks
  import opened Nodes
  import opened Runs
  import opened Backfill
  import opened Gaps
  import opened Sync

  /** The peer serves the valid chain `chain`. */
  ghost predicate Honest(p: Protocol, chain: seq<Block>, peer: Peer)
  {
    forall m :: peer(m) == Answer(p, chain, m)
  }

  /** The node has the known blocks of `chain`, connected or waiting, and nothing will be dropped
      before ten minutes after `t0`: the tip stays at or above `base`. */
  ghost predicate Synced(p: Protocol, ga: Accounts, chain: seq<Block>, known: set<nat>, base: nat, t0: u64,
                         at: Position)
  {
    && HashLaw(p) && ConsensusLaw(p) && ga != map[] && ValidChain(p, ga, chain, t0)
    && Tree(p, at.fc.nodes) && at.fc.best in at.fc.nodes && ParentsUnknown(at.fc.nodes, at.orphans)
    && Placed(p, chain, at.fc.nodes, at.orphans, known) && ArrivedSince(at.orphans, t0)
    && base <= BestHeight(at.fc) && Floor(p, base, Front(known, |chain|))
    && AllMayWait(known, Front(known, |chain|), base)
  }

  /** Only blocks of the chain were added, and a tip that moved is one of them. */
  ghost predicate Follows(p: Protocol, chain: seq<Block>, before: ForkChoice, after: ForkChoice)
  {
    && Advanced(p, before, after)
    && (after.best == before.best || OfChain(p, chain, after.best))
    && (forall h :: h in after.nodes ==> h in before.nodes || OfChain(p, chain, h))
  }

  lemma FollowsTwice(p: Protocol, chain: seq<Block>, a: ForkChoice, b: ForkChoice, c: ForkChoice)
    requires Follows(p, chain, a, b) && Follows(p, chain, b, c)
    ensures Follows(p, chain, a, c)
  {
    hide Advanced, OfChain;
    AdvancedTransitive(p, a, b, c);
  }

  // ----- One block -----

  /** An honest block is never reported as an error, and is applied exactly if it is the first
      missing one. */
  lemma HonestVerdict(p: Protocol, ga: Accounts, chain: seq<Block>, known: set<nat>, t0: u64, now: u64, j: nat,
                      fc: ForkChoice, orphans: Orphans, outcome: Option<NodeError>)
    requires HashLaw(p) && ConsensusLaw(p) && ga != map[] && ValidChain(p, ga, chain, t0) && t0 <= now
    requires Placed(p, chain, fc.nodes, orphans, known) && 0 < j < |chain| && Tree(p, fc.nodes)
    requires Reports(p, ga, fc, chain[j], now, outcome)
    ensures outcome == None && (Acceptable(p, ga, fc, chain[j], now) <==> j == Front(known, |chain|))
    ensures ValidChain(p, ga, chain, now) && chain[j].prev == p.hash(chain[j - 1])
  {
    hide HashLaw, ConsensusLaw, Placed, ValidAt, KnownParentVerdict, Front, Tree, Acceptable, Consistent;
    var l :| Consistent(p, ga, l, fc) && Reported(KnownParentVerdict(p, ga, l, fc, chain[j], now)) == outcome;
    ValidLater(p, ga, chain, t0, now);
    ChainVerdict(p, ga, l, fc, chain, orphans, known, j, now);
    AcceptedExactly(p, ga, l, fc, chain[j], now);
  }

  /** One delivered block of the chain is one more known block. */
  lemma StepSyncs(p: Protocol, ga: Accounts, chain: seq<Block>, known: set<nat>, base: nat, t0: u64, now: u64, j: nat,
                  before: Position, after: Position, outcome: Option<NodeError>)
    requires Synced(p, ga, chain, known, base, t0, before) && t0 <= now <= t0 + ORPHAN_BLOCK_TTL_SECS
    requires 0 < j < |chain| && MayWait(j, Front(known, |chain|), base)
    requires Step(p, ga, now, before, chain[j], after, outcome)
    ensures outcome == None && Synced(p, ga, chain, known + {j}, base, t0, after)
    ensures Follows(p, chain, before.fc, after.fc) && (j != Front(known, |chain|) ==> after.fc == before.fc)
    ensures Asked(j > Front(known, |chain|) && j !in known, p.hash(chain[j - 1]), now, before.requests,
                  before.retryAt, after.requests, after.retryAt)
  {
    hide HashLaw, ConsensusLaw, Tree, Placed, ArrivedSince, ParentsUnknown, Reports, Asked, ValidChain, Acceptable;
    hide Front, Survivors, TakesIn, BestHeight, MidTip, NeverBelow, Delivered, DropsJustified, Advanced, Insert;
    hide OfChain;
    var fc0, fc, f := before.fc, after.fc, Front(known, |chain|);
    var dropped :| DeliveryStep(p, ga, now, fc0, before.orphans, chain[j], fc, after.orphans, dropped);
    HonestVerdict(p, ga, chain, known, t0, now, j, fc0, before.orphans, outcome);
    ChainHeights(p, ga, chain, now);
    MidTipAbove(p, base, f, fc0, chain[j], fc);
    ChainNotDropped(p, chain, fc0.nodes, before.orphans, known, base, BestHeight(fc0), MidTip(p, fc0, chain[j], fc),
                    t0, j, now, dropped);
    ChainAsks(p, chain, fc0.nodes, before.orphans, known, base, BestHeight(fc0), j, now);
    ChainStep(p, ga, chain, now, fc0, before.orphans, fc, after.orphans, known, j, t0, base);
    FrontGrows(known, |chain|, j);
    MoreMayWait(known, f, Front(known + {j}, |chain|), base, j);
    StepTree(p, ga, now, before, chain[j], after, dropped);
  }

  lemma StepTree(p: Protocol, ga: Accounts, now: u64, before: Position, b: Block, after: Position, dropped: set<Hash>)
    requires DeliveryStep(p, ga, now, before.fc, before.orphans, b, after.fc, after.orphans, dropped)
    ensures Tree(p, after.fc.nodes)
  {
  }

  lemma ChainHeights(p: Protocol, ga: Accounts, chain: seq<Block>, now: u64)
    requires ValidChain(p, ga, chain, now)
    ensures LinkedChain(p, chain) && forall i :: 0 <= i < |chain| ==> chain[i].height == i
  {
    hide ValidAt;
  }

  lemma MoreMayWait(known: set<nat>, f: nat, g: nat, base: nat, j: nat)
    requires AllMayWait(known, f, base) && MayWait(j, f, base) && f <= g
    ensures AllMayWait(known + {j}, g, base)
  {
  }

  // ----- The request queue -----

  /** Every request is for the parent of a known block. */
  ghost predicate Names(p: Protocol, chain: seq<Block>, known: set<nat>, requests: seq<Hash>)
  {
    forall h :: h in requests ==> ParentOfKnown(p, chain, known, h)
  }

  ghost predicate ParentOfKnown(p: Protocol, chain: seq<Block>, known: set<nat>, h: Hash)
  {
    exists i: nat :: 0 < i < |chain| && i + 1 in known && p.hash(chain[i]) == h
  }

  /** Every missing parent of a known block is asked for, or will be fetched anyway. */
  ghost predicate Covers(p: Protocol, chain: seq<Block>, known: set<nat>, requests: seq<Hash>, todo: seq<nat>)
  {
    forall k :: k in known && 0 < k < |chain| && k - 1 !in known ==> p.hash(chain[k - 1]) in requests || k - 1 in todo
  }

  ghost predicate NowDue(retryAt: map<Hash, nat>, now: u64)
  {
    forall h :: h in retryAt ==> retryAt[h] <= now
  }

  /** The queue asks for exactly what is missing below a known block, and all of it is due. */
  ghost predicate Queued(p: Protocol, chain: seq<Block>, known: set<nat>, at: Position, now: u64)
  {
    Names(p, chain, known, at.requests) && Covers(p, chain, known, at.requests, []) && NowDue(at.retryAt, now)
  }

  /** New requests are for parents of blocks that started to wait. */
  ghost predicate AskedSince(p: Protocol, chain: seq<Block>, known: set<nat>, indices: seq<nat>, requests0: seq<Hash>,
                             requests: seq<Hash>)
  {
    forall h :: h in requests ==>
      h in requests0 || exists j :: j in indices && Starts(p, chain, known, j) && p.hash(chain[j - 1]) == h
  }

  ghost predicate Starts(p: Protocol, chain: seq<Block>, known: set<nat>, j: nat)
  {
    Front(known, |chain|) < j < |chain| && j !in known
  }

  lemma AskedMore(p: Protocol, chain: seq<Block>, known: set<nat>, known1: set<nat>, indices: seq<nat>, j: nat,
                  now: u64, requests0: seq<Hash>, at: Position, requests: seq<Hash>, retryAt: map<Hash, nat>)
    requires known <= known1 && j < |chain| && Front(known, |chain|) <= Front(known1, |chain|) && 0 < j
    requires AskedSince(p, chain, known, indices, requests0, at.requests) && NowDue(at.retryAt, now)
    requires Asked(j > Front(known1, |chain|) && j !in known1, p.hash(chain[j - 1]), now, at.requests, at.retryAt,
                   requests, retryAt)
    ensures AskedSince(p, chain, known, indices + [j], requests0, requests) && NowDue(retryAt, now)
    ensures forall h :: h in at.requests ==> h in requests
  {
    hide Front;
    forall h | h in requests && h !in requests0
      ensures exists k :: k in indices + [j] && Starts(p, chain, known, k) && p.hash(chain[k - 1]) == h
    {
      if h in at.requests {
        var k :| k in indices && Starts(p, chain, known, k) && p.hash(chain[k - 1]) == h;
        assert k in indices + [j];
      } else {
        assert j in indices + [j] && Starts(p, chain, known, j);
      }
    }
  }

  lemma CoversMore(p: Protocol, chain: seq<Block>, known: set<nat>, requests0: seq<Hash>, todo: seq<nat>, j: nat,
                   now: u64, retryAt0: map<Hash, nat>, requests: seq<Hash>, retryAt: map<Hash, nat>)
    requires 0 < j < |chain| && todo != [] && todo[0] == j && Covers(p, chain, known, requests0, todo)
    requires forall h :: h in requests0 ==> h in requests
    requires Asked(j > Front(known, |chain|) && j !in known, p.hash(chain[j - 1]), now, requests0, retryAt0, requests,
                   retryAt)
    ensures Covers(p, chain, known + {j}, requests, todo[1..])
  {
    hide Front;
    var more := known + {j};
    forall k | k in more && 0 < k < |chain| && k - 1 !in more
      ensures p.hash(chain[k - 1]) in requests || k - 1 in todo[1..]
    {
      if k in known {
        assert p.hash(chain[k - 1]) in requests0 || k - 1 in todo;
        if k - 1 in todo { assert todo == [todo[0]] + todo[1..]; }
      } else {
        assert k - 1 !in known && Front(known, |chain|) <= k - 1;
      }
    }
  }

  // ----- Several blocks -----

  function Indices(s: seq<nat>): (r: set<nat>)
  {
    set i | i in s
  }

  /** The blocks at `indices` were delivered, one after the other. */
  ghost predicate DeliveredAll(p: Protocol, ga: Accounts, chain: seq<Block>, now: u64, indices: seq<nat>,
                               trace: seq<Position>)
  {
    && |trace| == |indices| + 1
    && (forall i :: 0 <= i < |indices| ==> 0 < indices[i] < |chain|)
    && (forall i :: 0 <= i < |indices| ==> Stepped(p, ga, now, trace[i], chain[indices[i]], trace[i + 1]))
  }

  lemma {:induction false} AllSync(p: Protocol, ga: Accounts, chain: seq<Block>, known: set<nat>, base: nat, t0: u64,
                                   now: u64, indices: seq<nat>, trace: seq<Position>, n: nat)
    requires DeliveredAll(p, ga, chain, now, indices, trace) && n <= |indices|
    requires Synced(p, ga, chain, known, base, t0, trace[0]) && t0 <= now <= t0 + ORPHAN_BLOCK_TTL_SECS
    requires forall i :: 0 <= i < |indices| ==> MayWait(indices[i], Front(known, |chain|), base)
    requires NowDue(trace[0].retryAt, now)
    ensures Synced(p, ga, chain, known + Indices(indices[..n]), base, t0, trace[n])
    ensures Front(known, |chain|) <= Front(known + Indices(indices[..n]), |chain|)
    ensures Follows(p, chain, trace[0].fc, trace[n].fc) && NowDue(trace[n].retryAt, now)
    ensures Front(known, |chain|) !in known + Indices(indices[..n]) ==> trace[n].fc == trace[0].fc
    ensures AskedSince(p, chain, known, indices[..n], trace[0].requests, trace[n].requests)
    ensures Covers(p, chain, known, trace[0].requests, indices) ==>
              Covers(p, chain, known + Indices(indices[..n]), trace[n].requests, indices[n..])
  {
    hide Synced, Step, Follows, NowDue, Front, Asked, AskedSince, Covers, MayWait;
    if n == 0 {
      NothingYet(p, chain, known, trace[0], indices);
    } else {
      AllSync(p, ga, chain, known, base, t0, now, indices, trace, n - 1);
      var j, known1 := indices[n - 1], known + Indices(indices[..n - 1]);
      assert Stepped(p, ga, now, trace[n - 1], chain[j], trace[n]);
      var outcome :| Step(p, ga, now, trace[n - 1], chain[j], trace[n], outcome);
      LaterMayWait(j, Front(known, |chain|), Front(known1, |chain|), base);
      StepSyncs(p, ga, chain, known1, base, t0, now, j, trace[n - 1], trace[n], outcome);
      FollowsTwice(p, chain, trace[0].fc, trace[n - 1].fc, trace[n].fc);
      AskedMore(p, chain, known, known1, indices[..n - 1], j, now, trace[0].requests, trace[n - 1], trace[n].requests,
                trace[n].retryAt);
      if Covers(p, chain, known, trace[0].requests, indices) {
        CoversMore(p, chain, known1, trace[n - 1].requests, indices[n - 1..], j, now, trace[n - 1].retryAt,
                   trace[n].requests, trace[n].retryAt);
      }
      FrontGrows(known1, |chain|, j);
      FrontStays(known, known1, |chain|);
      assert indices[..n] == indices[..n - 1] + [j] && indices[n - 1..][1..] == indices[n..];
      assert known + Indices(indices[..n]) == known1 + {j};
    }
  }

  lemma LaterMayWait(j: nat, f: nat, g: nat, base: nat)
    requires MayWait(j, f, base) && f <= g
    ensures MayWait(j, g, base)
  {
  }

  lemma NothingYet(p: Protocol, chain: seq<Block>, known: set<nat>, at: Position, indices: seq<nat>)
    ensures known + Indices(indices[..0]) == known && indices[0..] == indices
    ensures Follows(p, chain, at.fc, at.fc) && AskedSince(p, chain, known, indices[..0], at.requests, at.requests)
  {
    hide Advanced, Front, OfChain;
    AdvancedReflexive(p, at.fc);
  }

  /** No delivery of an honest block reports an error. */
  lemma NoRefusal(p: Protocol, ga: Accounts, chain: seq<Block>, known: set<nat>, base: nat, t0: u64, now: u64,
                  indices: seq<nat>, trace: seq<Position>, n: nat, outcome: Option<NodeError>)
    requires DeliveredAll(p, ga, chain, now, indices, trace) && n < |indices|
    requires Synced(p, ga, chain, known, base, t0, trace[0]) && t0 <= now <= t0 + ORPHAN_BLOCK_TTL_SECS
    requires forall i :: 0 <= i < |indices| ==> MayWait(indices[i], Front(known, |chain|), base)
    requires NowDue(trace[0].retryAt, now)
    requires Step(p, ga, now, trace[n], chain[indices[n]], trace[n + 1], outcome)
    ensures outcome == None
  {
    hide Synced, Step, Follows, NowDue, Front, Asked, AskedSince, Covers, MayWait;
    AllSync(p, ga, chain, known, base, t0, now, indices, trace, n);
    var known1 := known + Indices(indices[..n]);
    LaterMayWait(indices[n], Front(known, |chain|), Front(known1, |chain|), base);
    StepSyncs(p, ga, chain, known1, base, t0, now, indices[n], trace[n], trace[n + 1], outcome);
  }

  /** The peer answers the requests with the blocks at these indices. */
  ghost predicate Serves(peer: Peer, chain: seq<Block>, wanted: seq<Request>, indices: seq<nat>)
  {
    && |wanted| == |indices|
    && (forall i :: 0 <= i < |wanted| ==> 0 < indices[i] < |chain|)
    && (forall i :: 0 <= i < |wanted| ==> BlockOf(peer(wanted[i])) == Some(chain[indices[i]]))
  }

  /** Requests to an honest peer do not fail and make the requested blocks known. */
  lemma HonestFetch(p: Protocol, ga: Accounts, peer: Peer, chain: seq<Block>, known: set<nat>, base: nat, t0: u64,
                    now: u64, wanted: seq<Request>, indices: seq<nat>, served: seq<Block>, trace: seq<Position>,
                    failed: Option<FetchError>)
    requires Fetched(p, ga, peer, wanted, now, served, trace, failed) && Serves(peer, chain, wanted, indices)
    requires Synced(p, ga, chain, known, base, t0, trace[0]) && t0 <= now <= t0 + ORPHAN_BLOCK_TTL_SECS
    requires forall i :: 0 <= i < |indices| ==> MayWait(indices[i], Front(known, |chain|), base)
    requires NowDue(trace[0].retryAt, now) && Covers(p, chain, known, trace[0].requests, indices)
    ensures failed == None && |served| == |indices|
    ensures var last, more := trace[|served|], known + Indices(indices);
            && Synced(p, ga, chain, more, base, t0, last) && Front(known, |chain|) <= Front(more, |chain|)
            && Follows(p, chain, trace[0].fc, last.fc) && NowDue(last.retryAt, now)
            && (Front(known, |chain|) !in more ==> last.fc == trace[0].fc)
            && AskedSince(p, chain, known, indices, trace[0].requests, last.requests)
            && Covers(p, chain, more, last.requests, [])
  {
    hide Synced, Step, Follows, NowDue, Front, AskedSince, Covers, MayWait;
    var n := |served|;
    var done := indices[..n];
    forall i | 0 <= i < n ensures Stepped(p, ga, now, trace[i], chain[done[i]], trace[i + 1]) {
      assert Step(p, ga, now, trace[i], served[i], trace[i + 1], if i + 1 == n then ErrorOf(failed) else None);
    }
    assert DeliveredAll(p, ga, chain, now, done, trace);
    if n > 0 { NoRefusal(p, ga, chain, known, base, t0, now, done, trace, n - 1, ErrorOf(failed)); }
    assert done == indices;
    AllSync(p, ga, chain, known, base, t0, now, indices, trace, n);
    assert indices[n..] == [];
  }

  // ----- One poll -----

  /** The heights a poll downloads. */
  function Downloads(tip: nat, remote: nat): (r: set<nat>)
    ensures forall i: nat :: i in r <==> tip < i <= Min(remote, tip + MAX_BLOCKS_PER_SYNC)
  {
    Prefix(Min(remote, tip + MAX_BLOCKS_PER_SYNC) + 1) - Prefix(tip + 1)
  }

  /** The downloaded blocks may wait. */
  predicate InReach(f: nat, base: nat, tip: nat, remote: nat)
  {
    remote > tip ==> MayWait(Min(remote, tip + MAX_BLOCKS_PER_SYNC), f, base)
  }

  function Range(local: nat, target: nat): (r: seq<nat>)
    requires local <= target
    ensures |r| == target - local && forall i :: 0 <= i < |r| ==> r[i] == local + 1 + i
  {
    seq(target - local, i requires 0 <= i => local + 1 + i)
  }

  lemma RangeIndices(local: nat, target: nat, remote: nat)
    requires local <= U64_MAX && remote <= U64_MAX && target == Target(local, remote)
    ensures Indices(Range(local, target)) == Downloads(local, remote)
  {
    forall i: nat ensures i in Indices(Range(local, target)) <==> i in Downloads(local, remote) {
      if local < i <= target { assert Range(local, target)[i - local - 1] == i; }
    }
  }

  /** Downloads from an honest peer. */
  lemma DownloadSyncs(p: Protocol, ga: Accounts, peer: Peer, chain: seq<Block>, known: set<nat>, base: nat, t0: u64,
                      now: u64, before: Position, down: Fetching, failed: Option<FetchError>)
    requires Honest(p, chain, peer) && Synced(p, ga, chain, known, base, t0, before)
    requires t0 <= now <= t0 + ORPHAN_BLOCK_TTL_SECS && Queued(p, chain, known, before, now)
    requires chain != [] && InReach(Front(known, |chain|), base, BestHeight(before.fc), |chain| - 1)
    requires var local := BestHeight(before.fc);
             Fetched(p, ga, peer, Heights(local, Target(local, |chain| - 1)), now, down.served, down.trace, failed)
    requires down.trace[0] == before
    ensures failed == None
    ensures var mid, more := down.trace[|down.served|], known + Downloads(BestHeight(before.fc), |chain| - 1);
            && Synced(p, ga, chain, more, base, t0, mid) && Front(known, |chain|) <= Front(more, |chain|)
            && Queued(p, chain, more, mid, now) && Follows(p, chain, before.fc, mid.fc)
            && (Front(known, |chain|) !in more ==> mid.fc == before.fc)
  {
    hide Synced, Follows, NowDue, Front, AskedSince, Fetched, BestHeight, Names, Covers, Honest, Heights, Serves;
    hide Downloads;
    var local := BestHeight(before.fc);
    var target := Target(local, |chain| - 1);
    var indices := Range(local, target);
    SyncedFacts(p, ga, chain, known, base, t0, before);
    HeightsServed(p, chain, peer, local);
    FetchedTrace(p, ga, peer, Heights(local, target), now, down.served, down.trace, failed);
    CoversAnyway(p, chain, known, before.requests, indices);
    HonestFetch(p, ga, peer, chain, known, base, t0, now, Heights(local, target), indices, down.served, down.trace,
                failed);
    RangeIndices(local, target, |chain| - 1);
    NamesMore(p, chain, known, indices, before.requests, down.trace[|down.served|].requests);
  }

  lemma SyncedFacts(p: Protocol, ga: Accounts, chain: seq<Block>, known: set<nat>, base: nat, t0: u64, at: Position)
    requires Synced(p, ga, chain, known, base, t0, at)
    ensures 0 in known && chain != [] && 0 < Front(known, |chain|) && forall i :: i in known ==> i < |chain|
    ensures (forall i :: 0 <= i < |chain| ==> chain[i].height == i) && HashLaw(p)
    ensures |chain| - 1 <= U64_MAX
  {
    hide Tree, Front, ValidAt, InTree;
    FrontPositive(p, chain, at.fc.nodes, at.orphans, known);
    ChainHeights(p, ga, chain, t0);
    assert chain[|chain| - 1].height == |chain| - 1;
  }

  lemma HeightsServed(p: Protocol, chain: seq<Block>, peer: Peer, local: nat)
    requires Honest(p, chain, peer) && chain != [] && local <= U64_MAX
    ensures var target := Target(local, |chain| - 1);
            Serves(peer, chain, Heights(local, target), Range(local, target))
  {
  }

  lemma FetchedTrace(p: Protocol, ga: Accounts, peer: Peer, wanted: seq<Request>, now: u64, served: seq<Block>,
                     trace: seq<Position>, failed: Option<FetchError>)
    requires Fetched(p, ga, peer, wanted, now, served, trace, failed)
    ensures |trace| == |served| + 1
  {
  }

  lemma CoversAnyway(p: Protocol, chain: seq<Block>, known: set<nat>, requests: seq<Hash>, todo: seq<nat>)
    requires Covers(p, chain, known, requests, [])
    ensures Covers(p, chain, known, requests, todo)
  {
  }

  lemma NamesMore(p: Protocol, chain: seq<Block>, known: set<nat>, indices: seq<nat>, requests0: seq<Hash>,
                  requests: seq<Hash>)
    requires Names(p, chain, known, requests0) && AskedSince(p, chain, known, indices, requests0, requests)
    requires 0 in known && chain != []
    ensures Names(p, chain, known + Indices(indices), requests)
  {
    hide Front;
    var more := known + Indices(indices);
    forall h | h in requests ensures ParentOfKnown(p, chain, more, h) {
      if h in requests0 {
        var i: nat :| 0 < i < |chain| && i + 1 in known && p.hash(chain[i]) == h;
        assert i + 1 in more;
      } else {
        var j :| j in indices && Starts(p, chain, known, j) && p.hash(chain[j - 1]) == h;
        assert 0 < j - 1 && (j - 1) + 1 in more;
      }
    }
  }

  /** Where the requested blocks are in the chain. */
  lemma {:induction false} Locate(p: Protocol, chain: seq<Block>, known: set<nat>, hashes: seq<Hash>)
    returns (indices: seq<nat>)
    requires Names(p, chain, known, hashes)
    ensures |indices| == |hashes|
    ensures forall i :: 0 <= i < |hashes| ==> 0 < indices[i] < |chain| && indices[i] + 1 in known
    ensures forall i :: 0 <= i < |hashes| ==> p.hash(chain[indices[i]]) == hashes[i]
  {
    if hashes == [] {
      indices := [];
    } else {
      var n := |hashes| - 1;
      assert Names(p, chain, known, hashes[..n]) && hashes[n] in hashes;
      indices := Locate(p, chain, known, hashes[..n]);
      var i: nat :| 0 < i < |chain| && i + 1 in known && p.hash(chain[i]) == hashes[n];
      indices := indices + [i];
    }
  }

  lemma DigestsServed(p: Protocol, chain: seq<Block>, peer: Peer, hashes: seq<Hash>, indices: seq<nat>)
    requires HashLaw(p) && Honest(p, chain, peer) && |indices| == |hashes|
    requires forall i :: 0 <= i < |hashes| ==> 0 < indices[i] < |chain|
    requires forall i :: 0 <= i < |hashes| ==> p.hash(chain[indices[i]]) == hashes[i]
    ensures Serves(peer, chain, ByDigest(hashes), indices)
  {
    hide BlockWith;
    forall i | 0 <= i < |hashes| ensures BlockOf(peer(GetBlockByHash(hashes[i]))) == Some(chain[indices[i]]) {
      assert chain[indices[i]] in chain;
      assert peer(GetBlockByHash(hashes[i])) == Answer(p, chain, GetBlockByHash(hashes[i]));
    }
  }

  /** All requests are due, so a round takes them all. */
  lemma AllTaken(p: Protocol, chain: seq<Block>, known: set<nat>, at: Position, now: u64)
    requires Queued(p, chain, known, at, now)
    ensures TakenOut(at, now).requests == [] && NowDue(TakenOut(at, now).retryAt, now)
    ensures Names(p, chain, known, Due(at.requests, at.retryAt, now))
    ensures forall h :: h in Due(at.requests, at.retryAt, now) <==> h in at.requests
  {
    hide Covers, Due, NotDue;
    AllDue(at.requests, at.retryAt, now);
  }

  /** The missing parents are among the requested blocks, and everything requested is the parent of a
      known block. */
  lemma RequestedIsDown(p: Protocol, chain: seq<Block>, known: set<nat>, requests: seq<Hash>, hashes: seq<Hash>,
                        indices: seq<nat>)
    requires HashLaw(p) && Covers(p, chain, known, requests, []) && |indices| == |hashes|
    requires forall h :: h in hashes <==> h in requests
    requires forall i :: 0 <= i < |chain| ==> chain[i].height == i
    requires forall i :: i in known ==> i < |chain|
    requires forall i :: 0 <= i < |hashes| ==> 0 < indices[i] < |chain| && indices[i] + 1 in known
    requires forall i :: 0 <= i < |hashes| ==> p.hash(chain[indices[i]]) == hashes[i]
    ensures Covers(p, chain, known, [], indices) && known + Indices(indices) == Down(known)
  {
    forall k | k in known && 0 < k < |chain| && k - 1 !in known ensures k - 1 in indices {
      assert p.hash(chain[k - 1]) in hashes;
      var i :| 0 <= i < |hashes| && hashes[i] == p.hash(chain[k - 1]);
      assert chain[indices[i]] == chain[k - 1];
      assert indices[i] in indices;
    }
    forall j: nat ensures j in known + Indices(indices) <==> j in Down(known) {
      if j in indices { assert j + 1 in known; }
    }
  }

  /** One round of requests to an honest peer lowers every gap by one block. */
  lemma RoundSyncs(p: Protocol, ga: Accounts, peer: Peer, chain: seq<Block>, known: set<nat>, base: nat, t0: u64,
                   now: u64, before: Position, after: Position, r: Result<bool, (Hash, FetchError)>, round: Fetching)
    requires Honest(p, chain, peer) && Synced(p, ga, chain, known, base, t0, before)
    requires t0 <= now <= t0 + ORPHAN_BLOCK_TTL_SECS && Queued(p, chain, known, before, now)
    requires Round(p, ga, peer, now, before, after, r, round.served, round.trace)
    ensures r == Ok(before.requests != [])
    ensures Synced(p, ga, chain, Down(known), base, t0, after)
    ensures Front(known, |chain|) <= Front(Down(known), |chain|)
    ensures Queued(p, chain, Down(known), after, now) && Follows(p, chain, before.fc, after.fc)
    ensures Front(known, |chain|) !in Down(known) ==> after.fc == before.fc
    ensures GapsWithin(known, 1) && OneGap(known) ==> after.requests == []
  {
    hide Synced, Follows, NowDue, Front, Fetched, Names, Covers, Honest, Serves, Due, TakenOut, Requeued, Down, HashLaw;
    var hashes := Due(before.requests, before.retryAt, now);
    SyncedFacts(p, ga, chain, known, base, t0, before);
    AllTaken(p, chain, known, before, now);
    var indices := Locate(p, chain, known, hashes);
    DigestsServed(p, chain, peer, hashes, indices);
    RequestedIsDown(p, chain, known, before.requests, hashes, indices);
    SyncedMayWait(p, ga, chain, known, base, t0, before);
    ParentsMayWait(known, Front(known, |chain|), base, indices);
    SyncedAfterDrain(p, ga, chain, known, base, t0, before, now);
    HonestFetch(p, ga, peer, chain, known, base, t0, now, ByDigest(hashes), indices, round.served, round.trace,
                if r.Ok? then None else Some(r.error.1));
    NoNames(p, chain, known);
    NamesMore(p, chain, known, indices, [], after.requests);
    if GapsWithin(known, 1) && OneGap(known) { NothingLeft(p, chain, known, indices, after.requests); }
    SomeMember(before.requests, hashes);
  }

  lemma SomeMember(s: seq<Hash>, t: seq<Hash>)
    requires forall h :: h in s <==> h in t
    ensures s == [] <==> t == []
  {
    if s != [] { assert s[0] in s; }
    if t != [] { assert t[0] in t; }
  }

  lemma NoNames(p: Protocol, chain: seq<Block>, known: set<nat>)
    ensures Names(p, chain, known, [])
  {
  }

  lemma SyncedMayWait(p: Protocol, ga: Accounts, chain: seq<Block>, known: set<nat>, base: nat, t0: u64, at: Position)
    requires Synced(p, ga, chain, known, base, t0, at)
    ensures AllMayWait(known, Front(known, |chain|), base)
  {
  }

  lemma ParentsMayWait(known: set<nat>, f: nat, base: nat, indices: seq<nat>)
    requires AllMayWait(known, f, base) && forall i :: 0 <= i < |indices| ==> indices[i] + 1 in known
    ensures forall i :: 0 <= i < |indices| ==> MayWait(indices[i], f, base)
  {
    forall i | 0 <= i < |indices| ensures MayWait(indices[i], f, base) { assert MayWait(indices[i] + 1, f, base); }
  }

  lemma SyncedAfterDrain(p: Protocol, ga: Accounts, chain: seq<Block>, known: set<nat>, base: nat, t0: u64,
                         at: Position, now: u64)
    requires Synced(p, ga, chain, known, base, t0, at)
    ensures Synced(p, ga, chain, known, base, t0, TakenOut(at, now)) && TakenOut(at, now).fc == at.fc
  {
    hide HashLaw, ConsensusLaw, Tree, Placed, ArrivedSince, ParentsUnknown, ValidChain, Due, NotDue, Floor, BestHeight;
  }

  /** With one gap of one block nothing is left to ask for. */
  lemma NothingLeft(p: Protocol, chain: seq<Block>, known: set<nat>, indices: seq<nat>, requests: seq<Hash>)
    requires GapsWithin(known, 1) && OneGap(known) && 0 in known && forall i :: i in known ==> i < |chain|
    requires known + Indices(indices) == Down(known) && AskedSince(p, chain, known, indices, [], requests)
    ensures requests == []
  {
    hide Front, Down;
    forall j | j in indices ensures !Starts(p, chain, known, j) {
      if j !in known {
        assert j in known + Indices(indices);
        LastMissing(known, |chain|, j);
      }
    }
    assert forall h :: h !in requests;
    SomeMember(requests, []);
  }

  /** One poll of an honest peer: it never fails, fetches the next heights, and lowers every gap by
      one block. */
  lemma PollSyncs(p: Protocol, ga: Accounts, peer: Peer, chain: seq<Block>, known: set<nat>, base: nat, t0: u64,
                  now: u64, before: Position, after: Position, r: Result<bool, PollError>, down: Fetching,
                  round: Fetching)
    requires Honest(p, chain, peer) && Synced(p, ga, chain, known, base, t0, before)
    requires t0 <= now <= t0 + ORPHAN_BLOCK_TTL_SECS && Queued(p, chain, known, before, now)
    requires InReach(Front(known, |chain|), base, BestHeight(before.fc), |chain| - 1)
    requires Polled(p, ga, peer, now, before, after, r, down, round)
    ensures r.Ok?
    ensures var more := known + Downloads(BestHeight(before.fc), |chain| - 1);
            && Synced(p, ga, chain, Down(more), base, t0, after)
            && Front(known, |chain|) <= Front(Down(more), |chain|)
            && Queued(p, chain, Down(more), after, now) && Follows(p, chain, before.fc, after.fc)
            && (Front(known, |chain|) !in Down(more) ==> after.fc == before.fc)
            && (GapsWithin(more, 1) && OneGap(more) ==> after.requests == [])
  {
    hide Synced, Follows, Front, Fetched, Serves, Due, Queued, Round, Down, Downloads, HashLaw, BestHeight, InReach;
    SyncedFacts(p, ga, chain, known, base, t0, before);
    assert peer(GetTip) == Answer(p, chain, GetTip);
    var failed := if r.Err? && r.error.NoBlock? then Some(r.error.cause) else None;
    DownloadSyncs(p, ga, peer, chain, known, base, t0, now, before, down, failed);
    FetchedTrace(p, ga, peer, Heights(BestHeight(before.fc), Target(BestHeight(before.fc), |chain| - 1)), now,
                 down.served, down.trace, failed);
    var mid, more := down.trace[|down.served|], known + Downloads(BestHeight(before.fc), |chain| - 1);
    var asked := Due(mid.requests, mid.retryAt, now) != [];
    var result := if r.Ok? then Ok(asked) else Err((r.error.hash, r.error.because));
    RoundSyncs(p, ga, peer, chain, more, base, t0, now, mid, after, result, round);
    FollowsTwice(p, chain, before.fc, mid.fc, after.fc);
    FrontStays(known, more, |chain|);
  }

  // ----- Many polls -----

  /** Ready for a poll: the heights it would download may wait. */
  ghost predicate Ready(p: Protocol, ga: Accounts, chain: seq<Block>, known: set<nat>, base: nat, t0: u64,
                        at: Position)
  {
    && Synced(p, ga, chain, known, base, t0, at)
    && InReach(Front(known, |chain|), base, BestHeight(at.fc), |chain| - 1)
  }

  /** The tip is a connected block of the chain. */
  lemma TipOnChain(p: Protocol, ga: Accounts, chain: seq<Block>, known: set<nat>, base: nat, t0: u64, at: Position)
    requires Synced(p, ga, chain, known, base, t0, at) && OfChain(p, chain, at.fc.best)
    ensures BestHeight(at.fc) < Front(known, |chain|) && chain[BestHeight(at.fc)] == at.fc.nodes[at.fc.best]
  {
    hide Front, ConsensusLaw;
    ChainHeights(p, ga, chain, t0);
    var k :| 0 <= k < |chain| && p.hash(chain[k]) == at.fc.best;
    TreeDigest(p, at.fc.nodes, at.fc.best);
    assert InTree(p, at.fc.nodes, chain, k);
  }

  /** After a poll the node is ready for the next one: the tip did not move, or it is now on the
      chain, and the height limit moves along. */
  lemma NextReady(p: Protocol, ga: Accounts, chain: seq<Block>, known: set<nat>, next: set<nat>, base: nat, t0: u64,
                  before: Position, after: Position)
    returns (base1: nat)
    requires Ready(p, ga, chain, known, base, t0, before) && Synced(p, ga, chain, next, base, t0, after)
    requires Front(known, |chain|) <= Front(next, |chain|) && Follows(p, chain, before.fc, after.fc)
    ensures Ready(p, ga, chain, next, base1, t0, after)
    ensures BestHeight(after.fc) == BestHeight(before.fc) || BestHeight(after.fc) < Front(next, |chain|)
  {
    hide Front, HashLaw, ConsensusLaw, Tree, Placed, ArrivedSince, ParentsUnknown, ValidChain, Advanced, OfChain;
    AdvancedGrows(p, before.fc, after.fc);
    if after.fc.best == before.fc.best {
      base1 := base;
    } else {
      base1 := BestHeight(after.fc);
      TipOnChain(p, ga, chain, next, base, t0, after);
    }
  }

  lemma QueuedLater(p: Protocol, chain: seq<Block>, known: set<nat>, at: Position, now: u64, later: u64)
    requires Queued(p, chain, known, at, now) && now <= later
    ensures Queued(p, chain, known, at, later)
  {
    hide Names, Covers;
  }

  /** What the next poll downloads is known already or continues the connected blocks, so it opens no
      new gap. */
  lemma NextDownloads(known: set<nat>, len: nat, tip0: nat, tip: nat, remote: nat, n: nat)
    requires GapsWithin(known, n) && Downloads(tip0, remote) <= known
    requires tip == tip0 || tip < Front(known, len)
    ensures GapsWithin(known + Downloads(tip, remote), n)
    ensures OneGap(known) ==> OneGap(known + Downloads(tip, remote))
  {
    hide Front, Downloads;
    if tip == tip0 {
      assert known + Downloads(tip, remote) == known;
    } else {
      RangeOpensNoGap(known, len, tip + 1, Downloads(tip, remote), n);
    }
  }

  /** Without gaps every known block is connected. */
  lemma AllConnected(p: Protocol, ga: Accounts, chain: seq<Block>, known: set<nat>, base: nat, t0: u64, at: Position,
                     now: u64)
    requires Synced(p, ga, chain, known, base, t0, at) && Queued(p, chain, known, at, now) && GapsWithin(known, 0)
    ensures known == Prefix(Front(known, |chain|)) && at.orphans == map[]
    ensures forall i :: 0 <= i < |chain| ==> (InTree(p, at.fc.nodes, chain, i) <==> i < Front(known, |chain|))
    ensures forall h :: h in at.requests ==> h in at.fc.nodes
  {
    hide Front, Prefix, Tree, HashLaw, ConsensusLaw, ValidChain, ParentsUnknown, ArrivedSince, Covers, GapsWithin;
    var f := Front(known, |chain|);
    forall i: nat | i in known ensures i < f { NoGaps(known, |chain|, i, i); }
    assert forall h :: h !in at.orphans;
    forall h | h in at.requests ensures h in at.fc.nodes {
      assert ParentOfKnown(p, chain, known, h);
      var i: nat :| 0 < i < |chain| && i + 1 in known && p.hash(chain[i]) == h;
      assert InTree(p, at.fc.nodes, chain, i);
    }
  }

  /** One poll of an honest peer by a node that is ready for it. */
  method PollHonest(node: Node, peer: Peer, now: u64, ghost chain: seq<Block>, ghost known: set<nat>, ghost base: nat,
                    ghost t0: u64)
    returns (ghost next: set<nat>, ghost base1: nat)
    requires node.Valid() && Honest(node.p, chain, peer) && t0 <= now <= t0 + ORPHAN_BLOCK_TTL_SECS
    requires Ready(node.p, node.genesisAccounts, chain, known, base, t0, At(node))
    requires Queued(node.p, chain, known, At(node), now)
    modifies node`ledger, node`fc, node`orphans, node`children, node`requests, node`requested, node`retryAt
    modifies node.mempool, node.cache, node.storage
    ensures node.Valid() && Ready(node.p, node.genesisAccounts, chain, next, base1, t0, At(node))
    ensures Queued(node.p, chain, next, At(node), now) && Follows(node.p, chain, old(node.fc), node.fc)
    ensures BestHeight(node.fc) == old(BestHeight(node.fc)) || BestHeight(node.fc) < Front(next, |chain|)
    ensures var more := known + Downloads(old(BestHeight(node.fc)), |chain| - 1);
            && next == Down(more) && (GapsWithin(more, 1) && OneGap(more) ==> node.requests == [])
            && (Front(known, |chain|) !in next ==> node.fc == old(node.fc))
  {
    hide Synced, InReach, Queued, Front, BestHeight, Polled, Down, Downloads, Follows, Honest, Node.Core, Node.Orphaned;
    ghost var p, ga, before := node.p, node.genesisAccounts, At(node);
    SyncedFacts(p, ga, chain, known, base, t0, before);
    next := Down(known + Downloads(BestHeight(node.fc), |chain| - 1));
    var r, down, round := PollPeer(node, peer, now);
    PollSyncs(p, ga, peer, chain, known, base, t0, now, before, At(node), r, down, round);
    base1 := NextReady(p, ga, chain, known, next, base, t0, before, At(node));
  }

  /** Polling connects. If no gap below a known or downloadable block is longer than the number of
      polls, then these polls, at non-decreasing clock readings, put all of them into the tree and
      empty the pool. Requests that are left name connected blocks; with one gap none are left. */
  method PollUntilConnected(node: Node, peer: Peer, times: seq<u64>, ghost chain: seq<Block>, ghost known: set<nat>,
                            ghost base: nat, ghost t0: u64)
    returns (ghost top: nat, ghost base1: nat)
    requires node.Valid() && Honest(node.p, chain, peer)
    requires Ready(node.p, node.genesisAccounts, chain, known, base, t0, At(node))
    requires |times| > 0 && t0 <= times[0] && times[|times| - 1] <= t0 + ORPHAN_BLOCK_TTL_SECS
    requires forall i, j :: 0 <= i < j < |times| ==> times[i] <= times[j]
    requires Queued(node.p, chain, known, At(node), times[0])
    requires GapsWithin(known + Downloads(BestHeight(node.fc), |chain| - 1), |times|)
    modifies node`ledger, node`fc, node`orphans, node`children, node`requests, node`requested, node`retryAt
    modifies node.mempool, node.cache, node.storage
    ensures node.Valid() && node.orphans == map[] && Follows(node.p, chain, old(node.fc), node.fc)
    ensures forall i :: 0 <= i < |chain| ==> (InTree(node.p, node.fc.nodes, chain, i) <==> i < top)
    ensures known + Downloads(old(BestHeight(node.fc)), |chain| - 1) <= Prefix(top)
    ensures forall h :: h in node.requests ==> h in node.fc.nodes
    ensures OneGap(known + Downloads(old(BestHeight(node.fc)), |chain| - 1)) ==> node.requests == []
    ensures Ready(node.p, node.genesisAccounts, chain, Prefix(top), base1, t0, At(node))
    ensures Queued(node.p, chain, Prefix(top), At(node), times[|times| - 1])
  {
    hide Ready, Queued, Front, BestHeight, Down, Downloads, Follows, Honest, Node.Core, Node.Orphaned, GapsWithin;
    hide OneGap;
    hide InTree, Prefix;
    ghost var p, ga, fc0, remote := node.p, node.genesisAccounts, node.fc, |chain| - 1;
    var n := |times|;
    ReadyIsSynced(p, ga, chain, known, base, t0, At(node));
    SyncedFacts(p, ga, chain, known, base, t0, At(node));
    ghost var first := known + Downloads(BestHeight(fc0), remote);
    ghost var have := known;
    base1 := base;
    NothingYet(p, chain, known, At(node), []);
    for i := 0 to n
      invariant node.Valid() && Ready(p, ga, chain, have, base1, t0, At(node)) && Follows(p, chain, fc0, node.fc)
      invariant Queued(p, chain, have, At(node), if i == 0 then times[0] else times[i - 1])
      invariant i == 0 ==> have == known && node.fc == fc0
      invariant i > 0 ==> first <= have && GapsWithin(have, n - i)
      invariant GapsWithin(have + Downloads(BestHeight(node.fc), remote), n - i)
      invariant OneGap(first) ==> OneGap(have + Downloads(BestHeight(node.fc), remote))
      invariant i == n && OneGap(first) ==> node.requests == []
    {
      QueuedLater(p, chain, have, At(node), if i == 0 then times[0] else times[i - 1], times[i]);
      ghost var fc1, tip, more := node.fc, BestHeight(node.fc), have + Downloads(BestHeight(node.fc), remote);
      have, base1 := PollHonest(node, peer, times[i], chain, have, base1, t0);
      FollowsTwice(p, chain, fc0, fc1, node.fc);
      DownCloses(more, n - i - 1);
      if OneGap(first) { DownKeepsOneGap(more); }
      NextDownloads(have, |chain|, tip, BestHeight(node.fc), remote, n - i - 1);
    }
    ReadyIsSynced(p, ga, chain, have, base1, t0, At(node));
    AllConnected(p, ga, chain, have, base1, t0, At(node), times[n - 1]);
    top := Front(have, |chain|);
  }

  lemma ReadyIsSynced(p: Protocol, ga: Accounts, chain: seq<Block>, known: set<nat>, base: nat, t0: u64, at: Position)
    requires Ready(p, ga, chain, known, base, t0, at)
    ensures Synced(p, ga, chain, known, base, t0, at)
  {
  }

  /** How far the chain is in the tree. */
  lemma {:induction false} SharedLength(p: Protocol, nodes: map<Hash, Block>, chain: seq<Block>, n: nat)
    returns (f: nat)
    requires HashLaw(p) && Tree(p, nodes) && LinkedChain(p, chain) && InTree(p, nodes, chain, 0) && 0 < n <= |chain|
    ensures 0 < f <= n && forall i :: 0 <= i < n ==> (InTree(p, nodes, chain, i) <==> i < f)
  {
    hide Tree, HashLaw, InTree, LinkedChain;
    if n == 1 {
      f := 1;
    } else {
      f := SharedLength(p, nodes, chain, n - 1);
      if InTree(p, nodes, chain, n - 1) {
        ChainBranch(p, nodes, chain, n - 1);
        f := n;
      }
    }
  }

  /** Where a catch-up can start: any valid node with an empty pool that has the chain's first block.
      If the chain leaves its active branch not too far below the tip, the node is ready to poll, and
      as many polls as there are blocks from the fork to the tip connect what they download. */
  lemma SyncStarts(node: Node, chain: seq<Block>, t0: u64) returns (f: nat)
    requires node.Valid() && node.genesisAccounts != map[] && node.orphans == map[] && node.requests == []
    requires ValidChain(node.p, node.genesisAccounts, chain, t0) && InTree(node.p, node.fc.nodes, chain, 0)
    ensures 0 < f <= |chain| && forall i :: 0 <= i < |chain| ==> (InTree(node.p, node.fc.nodes, chain, i) <==> i < f)
    ensures Queued(node.p, chain, Prefix(f), At(node), t0)
    ensures var tip := BestHeight(node.fc);
            && (f <= tip + 1 + MAX_ORPHAN_HEIGHT_DISTANCE
                && tip + MAX_BLOCKS_PER_SYNC <= f + MAX_ORPHAN_HEIGHT_DISTANCE ==>
                  Ready(node.p, node.genesisAccounts, chain, Prefix(f), Min(f, tip), t0, At(node)))
            && GapsWithin(Prefix(f) + Downloads(tip, |chain| - 1), if tip < f then 0 else tip + 1 - f)
            && OneGap(Prefix(f) + Downloads(tip, |chain| - 1))
  {
    hide Tree, HashLaw, ConsensusLaw, ValidAt, Front, Prefix, Downloads, Node.Core, Node.Orphaned, BestHeight, Synced;
    hide InTree, Consistent, ParentsUnknown, GapsWithin, OneGap;
    NodeFacts(node);
    f := SharedLength(node.p, node.fc.nodes, chain, |chain|);
    FrontIs(Prefix(f), |chain|, f);
    if f <= BestHeight(node.fc) + 1 + MAX_ORPHAN_HEIGHT_DISTANCE {
      StartSynced(node.p, node.genesisAccounts, chain, f, t0, At(node));
    }
    QueueEmpty(node);
    StartGaps(f, BestHeight(node.fc), |chain| - 1);
  }

  lemma StartSynced(p: Protocol, ga: Accounts, chain: seq<Block>, f: nat, t0: u64, at: Position)
    requires HashLaw(p) && ConsensusLaw(p) && ga != map[] && ValidChain(p, ga, chain, t0) && at.orphans == map[]
    requires Tree(p, at.fc.nodes) && at.fc.best in at.fc.nodes && 0 < f <= |chain|
    requires forall i :: 0 <= i < |chain| ==> (InTree(p, at.fc.nodes, chain, i) <==> i < f)
    requires f <= BestHeight(at.fc) + 1 + MAX_ORPHAN_HEIGHT_DISTANCE
    ensures Synced(p, ga, chain, Prefix(f), Min(f, BestHeight(at.fc)), t0, at)
  {
    hide Tree, HashLaw, ConsensusLaw, ValidChain, Front, Prefix, BestHeight, InTree, NeverBelow;
    FrontIs(Prefix(f), |chain|, f);
  }

  lemma QueueEmpty(node: Node)
    requires node.Valid() && node.requests == []
    ensures node.retryAt == map[]
  {
    hide Node.Core, AtRest;
    assert node.retryAt.Keys == {};
  }

  lemma StartGaps(f: nat, tip: nat, remote: nat)
    requires f > 0
    ensures var more := Prefix(f) + Downloads(tip, remote);
            GapsWithin(more, if tip < f then 0 else tip + 1 - f) && OneGap(more)
  {
    hide Prefix, Downloads;
    var more, n := Prefix(f) + Downloads(tip, remote), if tip < f then 0 else tip + 1 - f;
    forall x, i: nat | x in more && i <= x ensures Near(more, i, n) {
      if i !in more { assert tip + 1 in more && i <= tip + 1 <= i + n; } else { assert i <= i <= i + n; }
    }
    assert forall k: nat :: Opens(more, k) ==> k == tip + 1;
  }

  // ----- Reaching the peer's tip -----

  /** Every longer part of the chain beats every shorter one. */
  ghost predicate Rising(above: Rank, chain: seq<Block>)
  {
    forall i, j :: 0 < i < j <= |chain| ==> above(chain[..j], chain[..i])
  }

  /** Cumulative work rises along a chain if every block has some. */
  lemma WorkRises(work: Block -> nat, chain: seq<Block>)
    requires forall b :: work(b) > 0
    ensures Rising(Heavier(work), chain)
  {
    forall i, j | 0 < i < j <= |chain| ensures Weight(work, chain[..j]) > Weight(work, chain[..i]) {
      WeightRises(work, chain, i, j);
    }
  }

  lemma {:induction false} WeightRises(work: Block -> nat, chain: seq<Block>, i: nat, j: nat)
    requires i < j <= |chain| && forall b :: work(b) > 0
    ensures Weight(work, chain[..j]) > Weight(work, chain[..i])
  {
    assert chain[..j][..j - 1] == chain[..j - 1];
    if i < j - 1 { WeightRises(work, chain, i, j - 1); }
  }

  /** Once the connected part of the chain beats the old branch, its end is the best tip. */
  lemma ChainLeads(p: Protocol, above: Rank, chain: seq<Block>, w: nat, fc0: ForkChoice, fc: ForkChoice, f: nat)
    requires HashLaw(p) && LinkedChain(p, chain) && RankRule(p, above) && TopRanked(p, above, fc0)
    requires Follows(p, chain, fc0, fc) && Rising(above, chain) && 0 < w <= f <= |chain| && Tree(p, fc.nodes)
    requires above(chain[..w], Branch(p, fc0.nodes, fc0.best))
    requires forall i :: 0 <= i < |chain| ==> (InTree(p, fc.nodes, chain, i) <==> i < f)
    ensures fc.best == p.hash(chain[f - 1])
  {
    hide Tree, Branch, Advanced, RankRule, HashLaw, LastOnTop;
    AdvancedKeepsTop(p, above, fc0, fc);
    AdvancedGrows(p, fc0, fc);
    var end := p.hash(chain[f - 1]);
    assert InTree(p, fc.nodes, chain, f - 1);
    ChainBranch(p, fc.nodes, chain, f - 1);
    assert !Beats(p, above, fc.nodes, end, fc.best);
    if fc.best == fc0.best {
      BranchStable(p, fc0.nodes, fc.nodes, fc0.best);
      RankChain(p, above, chain[..f], chain[..w], Branch(p, fc0.nodes, fc0.best));
    } else {
      var k :| 0 <= k < |chain| && p.hash(chain[k]) == fc.best;
      assert InTree(p, fc.nodes, chain, k);
      ChainBranch(p, fc.nodes, chain, k);
    }
  }

  lemma RankChain(p: Protocol, above: Rank, x: seq<Block>, y: seq<Block>, z: seq<Block>)
    requires RankRule(p, above) && (x == y || above(x, y)) && above(y, z)
    ensures above(x, z)
  {
  }

  /** The node's best tip is block `f - 1` of the chain and nothing is waiting. */
  ghost predicate InStep(p: Protocol, ga: Accounts, chain: seq<Block>, f: nat, t0: u64, at: Position)
  {
    && 0 < f <= |chain| && at.fc.best == p.hash(chain[f - 1])
    && Synced(p, ga, chain, Prefix(f), f - 1, t0, at)
  }

  lemma NothingWaits(p: Protocol, chain: seq<Block>, nodes: map<Hash, Block>, orphans: Orphans, f: nat)
    requires Placed(p, chain, nodes, orphans, Prefix(f)) && f <= |chain|
    ensures Front(Prefix(f), |chain|) == f && orphans == map[]
  {
    hide Front, Prefix, InTree;
    FrontIs(Prefix(f), |chain|, f);
    assert forall h :: h !in orphans;
  }

  /** With nothing waiting the clock and the height limit can start anew. */
  lemma StartAnew(p: Protocol, ga: Accounts, chain: seq<Block>, f: nat, base: nat, t0: u64, t1: u64, at: Position)
    requires 0 < f <= |chain| && Synced(p, ga, chain, Prefix(f), base, t0, at) && t0 <= t1
    requires at.fc.best == p.hash(chain[f - 1])
    ensures InStep(p, ga, chain, f, t1, at) && Front(Prefix(f), |chain|) == f && BestHeight(at.fc) == f - 1
    ensures Ready(p, ga, chain, Prefix(f), f - 1, t1, at)
  {
    hide Front, Prefix, Tree, HashLaw, ConsensusLaw, ParentsUnknown, ValidAt;
    NothingWaits(p, chain, at.fc.nodes, at.orphans, f);
    ValidLater(p, ga, chain, t0, t1);
    assert OfChain(p, chain, at.fc.best);
    TipIsEnd(p, ga, chain, f, base, t0, at);
  }

  lemma TipIsEnd(p: Protocol, ga: Accounts, chain: seq<Block>, f: nat, base: nat, t0: u64, at: Position)
    requires 0 < f <= |chain| && Synced(p, ga, chain, Prefix(f), base, t0, at)
    requires at.fc.best == p.hash(chain[f - 1])
    ensures BestHeight(at.fc) == f - 1
  {
    hide Front, Prefix, ConsensusLaw, Placed, ParentsUnknown, ValidAt;
    TreeDigest(p, at.fc.nodes, at.fc.best);
    ChainHeights(p, ga, chain, t0);
  }

  lemma PrefixNoGaps(f: nat, len: nat, tip: nat)
    requires 0 < f <= len && tip + 1 == f
    ensures var more := Prefix(f) + Downloads(tip, len - 1);
            more == Prefix(Min(len, f + MAX_BLOCKS_PER_SYNC)) == Down(more) && GapsWithin(more, 1) && OneGap(more)
  {
    hide Prefix, Downloads, Down;
    var more, all := Prefix(f) + Downloads(tip, len - 1), Prefix(Min(len, f + MAX_BLOCKS_PER_SYNC));
    assert more == all;
    forall x, i: nat | x in all && i <= x ensures Near(all, i, 1) { assert i in all; }
    forall i: nat ensures i in Down(all) <==> i in all { assert i in Down(all) ==> i in all || i + 1 in all; }
  }

  /** What a catch-up is measured against: the tree it started with, a rank whose winner the tip is,
      and a part of the chain that beats it. */
  ghost predicate Outranked(p: Protocol, above: Rank, chain: seq<Block>, w: nat, fc0: ForkChoice)
  {
    && RankRule(p, above) && TopRanked(p, above, fc0) && Rising(above, chain)
    && 0 < w <= |chain| && above(chain[..w], Branch(p, fc0.nodes, fc0.best))
  }

  lemma TakesLead(p: Protocol, ga: Accounts, above: Rank, chain: seq<Block>, w: nat, fc0: ForkChoice, f: nat,
                  base: nat, t0: u64, at: Position)
    requires Outranked(p, above, chain, w, fc0) && Follows(p, chain, fc0, at.fc) && w <= f <= |chain|
    requires Synced(p, ga, chain, Prefix(f), base, t0, at)
    ensures at.fc.best == p.hash(chain[f - 1])
  {
    hide Front, Prefix, ConsensusLaw, ParentsUnknown, ValidAt, RankRule, TopRanked, Rising, Follows, Tree, HashLaw;
    hide Branch;
    FrontIs(Prefix(f), |chain|, f);
    ChainLeads(p, above, chain, w, fc0, at.fc, f);
  }

  /** A node in step stays in step: a poll moves its tip up by 64 blocks or to the peer's tip. */
  method PollInStep(node: Node, peer: Peer, now: u64, ghost chain: seq<Block>, ghost f: nat, ghost t0: u64,
                    ghost above: Rank, ghost w: nat, ghost fc0: ForkChoice)
    requires node.Valid() && Honest(node.p, chain, peer) && t0 <= now
    requires InStep(node.p, node.genesisAccounts, chain, f, t0, At(node))
    requires Queued(node.p, chain, Prefix(f), At(node), now)
    requires Outranked(node.p, above, chain, w, fc0) && w <= f && Follows(node.p, chain, fc0, node.fc)
    modifies node`ledger, node`fc, node`orphans, node`children, node`requests, node`requested, node`retryAt
    modifies node.mempool, node.cache, node.storage
    ensures node.Valid() && node.requests == [] && Follows(node.p, chain, fc0, node.fc)
    ensures var g := Min(|chain|, f + MAX_BLOCKS_PER_SYNC);
            InStep(node.p, node.genesisAccounts, chain, g, now, At(node))
            && Queued(node.p, chain, Prefix(g), At(node), now)
  {
    hide Ready, Queued, Front, BestHeight, Down, Downloads, Follows, Honest, Node.Core, Node.Orphaned, GapsWithin;
    hide OneGap;
    hide Outranked, Synced, Prefix;
    ghost var p, ga, fc1 := node.p, node.genesisAccounts, node.fc;
    ghost var g := Min(|chain|, f + MAX_BLOCKS_PER_SYNC);
    StartAnew(p, ga, chain, f, f - 1, t0, now, At(node));
    PrefixNoGaps(f, |chain|, f - 1);
    ghost var next, base := PollHonest(node, peer, now, chain, Prefix(f), f - 1, now);
    FollowsTwice(p, chain, fc0, fc1, node.fc);
    ReadyIsSynced(p, ga, chain, next, base, now, At(node));
    TakesLead(p, ga, above, chain, w, fc0, g, base, now, At(node));
    StartAnew(p, ga, chain, g, base, now, now, At(node));
  }

  /** The ledger of a node whose best tip is a block of the chain. */
  lemma LedgerIsChain(node: Node, chain: seq<Block>, f: nat, t0: u64)
    requires node.Valid() && InStep(node.p, node.genesisAccounts, chain, f, t0, At(node))
    ensures node.ledger.blocks == chain[..f] && node.orphans == map[]
  {
    hide Front, Prefix, ConsensusLaw, ParentsUnknown, ValidAt, Tree, Branch, AllReplay, Node.Core, Node.Orphaned;
    NodeFacts(node);
    ConsistentTip(node.p, node.genesisAccounts, node.ledger, node.fc);
    NothingWaits(node.p, chain, node.fc.nodes, node.orphans, f);
    assert InTree(node.p, node.fc.nodes, chain, f - 1);
    ChainBranch(node.p, node.fc.nodes, chain, f - 1);
  }

  /** Catching up: the first polls close every gap, and the others reach the peer's tip, provided the
      part of the chain that the first ones connect beats the local branch. */
  method CatchUpWith(node: Node, peer: Peer, closing: seq<u64>, climbing: seq<u64>, ghost chain: seq<Block>,
                     ghost known: set<nat>, ghost base: nat, ghost t0: u64, ghost above: Rank, ghost w: nat)
    requires node.Valid() && Honest(node.p, chain, peer)
    requires Ready(node.p, node.genesisAccounts, chain, known, base, t0, At(node))
    requires |closing| > 0 && t0 <= closing[0] && closing[|closing| - 1] <= t0 + ORPHAN_BLOCK_TTL_SECS
    requires forall i, j :: 0 <= i < j < |closing| ==> closing[i] <= closing[j]
    requires forall i, j :: 0 <= i < j < |climbing| ==> climbing[i] <= climbing[j]
    requires climbing != [] && closing[|closing| - 1] <= climbing[0]
    requires Queued(node.p, chain, known, At(node), closing[0])
    requires GapsWithin(known + Downloads(BestHeight(node.fc), |chain| - 1), |closing|)
    requires Outranked(node.p, above, chain, w, node.fc)
    requires w - 1 in known + Downloads(BestHeight(node.fc), |chain| - 1)
    requires w + MAX_BLOCKS_PER_SYNC * |climbing| >= |chain|
    modifies node`ledger, node`fc, node`orphans, node`children, node`requests, node`requested, node`retryAt
    modifies node.mempool, node.cache, node.storage
    ensures node.Valid() && node.ledger.blocks == chain && node.orphans == map[] && node.requests == []
    ensures Follows(node.p, chain, old(node.fc), node.fc)
  {
    hide Ready, Queued, Front, BestHeight, Down, Downloads, Follows, Honest, Node.Core, Node.Orphaned, GapsWithin;
    hide OneGap;
    hide Outranked, Prefix, InStep, Synced;
    ghost var p, ga, fc0 := node.p, node.genesisAccounts, node.fc;
    ghost var f, base1 := PollUntilConnected(node, peer, closing, chain, known, base, t0);
    ghost var last := closing[|closing| - 1];
    ReadyIsSynced(p, ga, chain, Prefix(f), base1, t0, At(node));
    PrefixBound(p, ga, chain, f, base1, t0, At(node), w);
    TakesLead(p, ga, above, chain, w, fc0, f, base1, t0, At(node));
    StartAnew(p, ga, chain, f, base1, t0, last, At(node));
    for i := 0 to |climbing|
      invariant node.Valid() && Follows(p, chain, fc0, node.fc) && w <= f
      invariant f == |chain| || w + MAX_BLOCKS_PER_SYNC * i <= f
      invariant InStep(p, ga, chain, f, last, At(node)) && Queued(p, chain, Prefix(f), At(node), last)
      invariant i < |climbing| ==> last <= climbing[i]
      invariant i > 0 ==> node.requests == []
    {
      QueuedLater(p, chain, Prefix(f), At(node), last, climbing[i]);
      InStepBound(p, ga, chain, f, last, At(node));
      PollInStep(node, peer, climbing[i], chain, f, last, above, w, fc0);
      f, last := Min(|chain|, f + MAX_BLOCKS_PER_SYNC), climbing[i];
    }
    InStepBound(p, ga, chain, f, last, At(node));
    LedgerIsChain(node, chain, f, last);
    assert chain[..f] == chain;
  }

  lemma InStepBound(p: Protocol, ga: Accounts, chain: seq<Block>, f: nat, t0: u64, at: Position)
    requires InStep(p, ga, chain, f, t0, at)
    ensures 0 < f <= |chain|
  {
  }

  lemma PrefixBound(p: Protocol, ga: Accounts, chain: seq<Block>, f: nat, base: nat, t0: u64, at: Position, w: nat)
    requires Synced(p, ga, chain, Prefix(f), base, t0, at) && 0 < w && w - 1 in Prefix(f)
    ensures w <= f <= |chain|
  {
    hide Prefix, Synced, Front;
    SyncedFacts(p, ga, chain, Prefix(f), base, t0, at);
    assert f - 1 in Prefix(f);
  }
}
