/** Polling a peer: downloads by height and missing parents by digest. The peer may answer
    anything; what the node then does is stated step by step. */
module Sync {
  import opened Types
  import opened Protocols
  import opened ForkTree
  import opened Replays
  import opened Caches
  import opened Consistency
  import opened Orphanage
  import opened Delivery
  import opened Nodes
  import opened Runs

  const MAX_BLOCKS_PER_SYNC: nat := 64

  // ----- Requests and answers -----

  datatype Request = GetTip | GetBlockByHeight(height: nat) | GetBlockByHash(hash: Hash)
  datatype Reply = Tip(height: u64, hash: Hash) | BlockReply(block: Block)

  /** A peer as the node meets it during one poll. */
  type Peer = Request -> Option<Reply>

  function BlockOf(r: Option<Reply>): (b: Option<Block>)
  {
    if r.Some? && r.value.BlockReply? then Some(r.value.block) else None
  }

  function BlockWith(p: Protocol, chain: seq<Block>, h: Hash): (r: Option<Block>)
    ensures r.Some? ==> r.value in chain && p.hash(r.value) == h
    ensures r.None? ==> forall b :: b in chain ==> p.hash(b) != h
  {
    if chain == [] then None
    else
      var n := |chain| - 1;
      assert chain == chain[..n] + [chain[n]];
      if p.hash(chain[n]) == h then Some(chain[n]) else BlockWith(p, chain[..n], h)
  }

  /** What a peer with active chain `chain` answers. */
  function Answer(p: Protocol, chain: seq<Block>, m: Request): (r: Option<Reply>)
  {
    match m
    case GetTip => if chain == [] then None else Some(Tip(chain[|chain| - 1].height, p.hash(chain[|chain| - 1])))
    case GetBlockByHeight(h) => if h < |chain| then Some(BlockReply(chain[h])) else None
    case GetBlockByHash(h) => match BlockWith(p, chain, h) { case None => None case Some(b) => Some(BlockReply(b)) }
  }

  /** Every valid node answers from its active chain, although it looks digests up in the cache. */
  method HandleRequest(peer: Node, m: Request) returns (r: Option<Reply>)
    requires peer.Valid()
    ensures r == Answer(peer.p, peer.ledger.blocks, m)
  {
    hide Consistent, Node.Orphaned, TransitionLaw, RootLaw, ConsensusLaw, GenesisLaw, ByHash;
    NodeFacts(peer);
    match m {
      case GetTip =>
        var tip := peer.TipHash();
        if tip.None? { return None; }
        return Some(Tip(peer.TipHeight(), tip.value));
      case GetBlockByHeight(h) =>
        if h < |peer.ledger.blocks| { return Some(BlockReply(peer.ledger.blocks[h])); }
        return None;
      case GetBlockByHash(h) =>
        ByHashElements(peer.p, peer.ledger.blocks);
        if h in peer.cache.blocksByHash { return Some(BlockReply(peer.cache.blocksByHash[h])); }
        return None;
    }
  }

  // ----- One delivered block -----

  /** Tree, orphan pool and request queue of a node. */
  datatype Position = Position(fc: ForkChoice, orphans: Orphans, requests: seq<Hash>, retryAt: map<Hash, nat>)

  ghost function At(node: Node): (r: Position)
    reads node
  {
    Position(node.fc, node.orphans, node.requests, node.retryAt)
  }

  /** The error that delivering a block to this tree reports. */
  ghost predicate Reports(p: Protocol, ga: Accounts, fc: ForkChoice, b: Block, now: u64, outcome: Option<NodeError>)
  {
    exists l :: Consistent(p, ga, l, fc) && Reported(KnownParentVerdict(p, ga, l, fc, b, now)) == outcome
  }

  /** The report depends on tree and block alone. */
  lemma ReportsOnce(p: Protocol, ga: Accounts, fc: ForkChoice, b: Block, now: u64, one: Option<NodeError>,
                    two: Option<NodeError>)
    requires Reports(p, ga, fc, b, now, one) && Reports(p, ga, fc, b, now, two)
    ensures one == two
  {
    hide Tree, AllReplay, Branch, Replay, BranchVerdict;
  }

  /** Does the node ask for the parent of a delivered block? */
  ghost predicate Asks(p: Protocol, at: Position, b: Block, now: u64)
  {
    var tip := BestHeight(at.fc);
    b.prev !in at.fc.nodes && b.height > 0 && TakesIn(p, at.fc.nodes, tip, Survivors(at.orphans, tip, now), b, now)
  }

  /** One delivery, with the error it reports. */
  ghost predicate Step(p: Protocol, ga: Accounts, now: u64, before: Position, b: Block, after: Position,
                       outcome: Option<NodeError>)
  {
    && Reports(p, ga, before.fc, b, now, outcome)
    && (exists dropped :: DeliveryStep(p, ga, now, before.fc, before.orphans, b, after.fc, after.orphans, dropped))
    && Asked(Asks(p, before, b, now), b.prev, now, before.requests, before.retryAt, after.requests, after.retryAt)
  }

  ghost predicate Stepped(p: Protocol, ga: Accounts, now: u64, before: Position, b: Block, after: Position)
  {
    exists outcome :: Step(p, ga, now, before, b, after, outcome)
  }

  datatype FetchError = NoAnswer | NotApplied(error: NodeError)

  function ErrorOf(failed: Option<FetchError>): (r: Option<NodeError>)
  {
    if failed.Some? && failed.value.NotApplied? then Some(failed.value.error) else None
  }

  /** Requests one block, applies it and writes the ledger. */
  method FetchBlock(node: Node, peer: Peer, m: Request, now: u64) returns (failed: Option<FetchError>)
    requires node.Valid()
    modifies node`ledger, node`fc, node`orphans, node`children, node`requests, node`requested, node`retryAt
    modifies node.mempool, node.cache, node.storage
    ensures node.Valid()
    ensures BlockOf(peer(m)).None? ==> failed == Some(NoAnswer) && At(node) == old(At(node))
    ensures BlockOf(peer(m)).Some? ==>
              failed != Some(NoAnswer)
              && Step(node.p, node.genesisAccounts, now, old(At(node)), BlockOf(peer(m)).value, At(node),
                      ErrorOf(failed))
  {
    hide Node.Core, Node.Orphaned, KnownParentVerdict, DeliveryStep, Survivors, TakesIn, Asked, Reported, BestHeight;
    hide Consistent;
    var reply := BlockOf(peer(m));
    if reply.None? { return Some(NoAnswer); }
    NodeFacts(node);
    var error, dropped := node.ApplyBlock(reply.value, now);
    if error.Some? { return Some(NotApplied(error.value)); }
    node.FlushToStorage();
    return None;
  }

  // ----- Lists of requests -----

  /** The blocks a list of requests brought, in order, and the positions between them. The requests
      end with the first one that fails: everything before it was applied without an error. */
  ghost predicate Fetched(p: Protocol, ga: Accounts, peer: Peer, wanted: seq<Request>, now: u64, served: seq<Block>,
                          trace: seq<Position>, failed: Option<FetchError>)
  {
    && |trace| == |served| + 1 && |served| <= |wanted|
    && (forall i :: 0 <= i < |served| ==> BlockOf(peer(wanted[i])) == Some(served[i]))
    && (forall i :: 0 <= i < |served| ==>
          Step(p, ga, now, trace[i], served[i], trace[i + 1], if i + 1 == |served| then ErrorOf(failed) else None))
    && match failed
       case None => |served| == |wanted|
       case Some(NoAnswer) => |served| < |wanted| && BlockOf(peer(wanted[|served|])).None?
       case Some(NotApplied(_)) => |served| > 0
  }

  /** Which of the requests failed. */
  function FailedAt(served: seq<Block>, cause: FetchError): (r: int)
  {
    if cause.NoAnswer? then |served| else |served| - 1
  }

  /** The next request of a list. */
  lemma FetchedMore(p: Protocol, ga: Accounts, peer: Peer, wanted: seq<Request>, n: nat, now: u64, served: seq<Block>,
                    trace: seq<Position>, after: Position, failed: Option<FetchError>)
    returns (more: seq<Block>, longer: seq<Position>)
    requires n < |wanted| && Fetched(p, ga, peer, wanted[..n], now, served, trace, None)
    requires BlockOf(peer(wanted[n])).None? ==> failed == Some(NoAnswer) && after == trace[n]
    requires BlockOf(peer(wanted[n])).Some? ==>
               failed != Some(NoAnswer)
               && Step(p, ga, now, trace[n], BlockOf(peer(wanted[n])).value, after, ErrorOf(failed))
    ensures failed.None? ==> Fetched(p, ga, peer, wanted[..n + 1], now, more, longer, None)
    ensures failed.Some? ==>
              Fetched(p, ga, peer, wanted, now, more, longer, failed) && FailedAt(more, failed.value) == n
    ensures |longer| == |more| + 1 && longer[0] == trace[0] && longer[|more|] == after
  {
    hide Step;
    var reply := BlockOf(peer(wanted[n]));
    if reply.None? { return served, trace; }
    more, longer := served + [reply.value], trace + [after];
    forall i | 0 <= i < |more| ensures BlockOf(peer(wanted[i])) == Some(more[i]) {
      if i < n { assert wanted[..n][i] == wanted[i]; }
    }
    forall i | 0 <= i < |more|
      ensures Step(p, ga, now, longer[i], more[i], longer[i + 1], if i + 1 == |more| then ErrorOf(failed) else None)
    {
      if i < n { assert Step(p, ga, now, trace[i], served[i], trace[i + 1], None); }
    }
  }

  // ----- Downloads by height -----

  function Heights(local: nat, target: nat): (r: seq<Request>)
    requires local <= target
    ensures |r| == target - local && forall i :: 0 <= i < |r| ==> r[i] == GetBlockByHeight(local + 1 + i)
  {
    seq(target - local, i requires 0 <= i => GetBlockByHeight(local + 1 + i))
  }

  /** Downloads the heights above the local tip up to `target`; stops at the first one that fails. */
  method DownloadHeights(node: Node, peer: Peer, local: nat, target: nat, now: u64)
    returns (failed: Option<(nat, FetchError)>, ghost served: seq<Block>, ghost trace: seq<Position>)
    requires node.Valid() && local <= target
    modifies node`ledger, node`fc, node`orphans, node`children, node`requests, node`requested, node`retryAt
    modifies node.mempool, node.cache, node.storage
    ensures node.Valid()
    ensures Fetched(node.p, node.genesisAccounts, peer, Heights(local, target), now, served, trace,
                    if failed.None? then None else Some(failed.value.1))
    ensures failed.Some? ==> failed.value.0 == local + 1 + FailedAt(served, failed.value.1)
    ensures trace[0] == old(At(node)) && trace[|served|] == At(node)
  {
    hide Step, Node.Core, Node.Orphaned, Heights;
    ghost var p, ga, wanted := node.p, node.genesisAccounts, Heights(local, target);
    served, trace := [], [At(node)];
    for j := local + 1 to target + 1
      invariant node.Valid() && Fetched(p, ga, peer, wanted[..j - local - 1], now, served, trace, None)
      invariant trace[0] == old(At(node)) && trace[|served|] == At(node)
    {
      var cause := FetchBlock(node, peer, GetBlockByHeight(j), now);
      served, trace := FetchedMore(p, ga, peer, wanted, j - local - 1, now, served, trace, At(node), cause);
      if cause.Some? { return Some((j, cause.value)), served, trace; }
    }
    assert wanted[..target - local] == wanted;
    return None, served, trace;
  }

  // ----- Missing parents by digest -----

  function ByDigest(hashes: seq<Hash>): (r: seq<Request>)
    ensures |r| == |hashes| && forall i :: 0 <= i < |r| ==> r[i] == GetBlockByHash(hashes[i])
  {
    seq(|hashes|, i requires 0 <= i < |hashes| => GetBlockByHash(hashes[i]))
  }

  /** The queue without its due requests. */
  ghost function TakenOut(at: Position, now: u64): (r: Position)
  {
    at.(requests := NotDue(at.requests, at.retryAt, now),
        retryAt := at.retryAt - Members(Due(at.requests, at.retryAt, now)))
  }

  /** A failed request goes back into the queue with a delay, unless its block has arrived. */
  ghost predicate Requeued(before: Position, h: Hash, now: u64, after: Position)
  {
    && after.fc == before.fc && after.orphans == before.orphans
    && (if h in before.fc.nodes then after == before
        else Asked(true, h, SatAdd64(now, MISSING_PARENT_RETRY_SECS), before.requests, before.retryAt, after.requests,
                   after.retryAt))
  }

  /** One round of requests for missing parents: the due ones leave the queue and are fetched in
      order; the first that fails is reported and queued again, the due ones after it are not. */
  ghost predicate Round(p: Protocol, ga: Accounts, peer: Peer, now: u64, before: Position, after: Position,
                        r: Result<bool, (Hash, FetchError)>, served: seq<Block>, trace: seq<Position>)
  {
    var due := Due(before.requests, before.retryAt, now);
    && Fetched(p, ga, peer, ByDigest(due), now, served, trace, if r.Ok? then None else Some(r.error.1))
    && trace[0] == TakenOut(before, now)
    && match r
       case Ok(asked) => asked == (due != []) && after == trace[|served|]
       case Err((h, cause)) => h == due[FailedAt(served, cause)] && Requeued(trace[|served|], h, now, after)
  }

  /** Takes every due request out of the queue. */
  method DrainDue(node: Node, now: u64) returns (ready: seq<Hash>)
    requires node.Valid()
    modifies node`requests, node`requested, node`retryAt
    ensures node.Valid() && ready == Due(old(node.requests), old(node.retryAt), now)
    ensures At(node) == TakenOut(old(At(node)), now)
  {
    hide Node.Core, AtRest, Due, NotDue, NoRepeats;
    ready := node.DrainMissingParentRequests(now);
  }

  method Requeue(node: Node, h: Hash, now: u64)
    requires node.Valid()
    modifies node`requests, node`requested, node`retryAt
    ensures node.Valid() && Requeued(old(At(node)), h, now, At(node))
  {
    hide Node.Core, AtRest, QueueOk, Asked;
    node.RetryMissingParentRequest(h, now);
  }

  /** Requests every due missing parent from the peer and applies the answers. */
  method RequestMissingParentBlocks(node: Node, peer: Peer, now: u64)
    returns (r: Result<bool, (Hash, FetchError)>, ghost served: seq<Block>, ghost trace: seq<Position>)
    requires node.Valid()
    modifies node`ledger, node`fc, node`orphans, node`children, node`requests, node`requested, node`retryAt
    modifies node.mempool, node.cache, node.storage
    ensures node.Valid()
    ensures Round(node.p, node.genesisAccounts, peer, now, old(At(node)), At(node), r, served, trace)
  {
    hide Step, Node.Core, Node.Orphaned, Due, NotDue, Requeued;
    ghost var p, ga := node.p, node.genesisAccounts;
    var hashes := DrainDue(node, now);
    ghost var wanted := ByDigest(hashes);
    served, trace := [], [At(node)];
    for i := 0 to |hashes|
      invariant node.Valid() && Fetched(p, ga, peer, wanted[..i], now, served, trace, None)
      invariant trace[0] == TakenOut(old(At(node)), now) && trace[|served|] == At(node)
    {
      var cause := FetchBlock(node, peer, GetBlockByHash(hashes[i]), now);
      served, trace := FetchedMore(p, ga, peer, wanted, i, now, served, trace, At(node), cause);
      if cause.Some? {
        Requeue(node, hashes[i], now);
        return Err((hashes[i], cause.value)), served, trace;
      }
    }
    assert wanted[..|hashes|] == wanted;
    return Ok(hashes != []), served, trace;
  }

  /** Deliveries only ever add the parents of the delivered blocks to the queue. */
  lemma {:induction false} FetchedQueue(p: Protocol, ga: Accounts, peer: Peer, wanted: seq<Request>, now: u64,
                                        served: seq<Block>, trace: seq<Position>, failed: Option<FetchError>, n: nat)
    requires Fetched(p, ga, peer, wanted, now, served, trace, failed) && n <= |served|
    ensures forall h :: h in trace[n].requests ==>
              h in trace[0].requests || exists i :: 0 <= i < n && served[i].prev == h
  {
    hide Reports, DeliveryStep, Asks;
    if n > 0 {
      FetchedQueue(p, ga, peer, wanted, now, served, trace, failed, n - 1);
      var outcome := if n == |served| then ErrorOf(failed) else None;
      assert Step(p, ga, now, trace[n - 1], served[n - 1], trace[n], outcome);
      forall h | h in trace[n].requests
        ensures h in trace[0].requests || exists i :: 0 <= i < n && served[i].prev == h
      {
        if h !in trace[n - 1].requests { assert served[n - 1].prev == h; }
      }
    }
  }

  /** After a round the queue holds requests that were not due, parents of blocks the round brought,
      and at most one that was due: the one that failed. */
  lemma RoundQueue(p: Protocol, ga: Accounts, peer: Peer, now: u64, before: Position, after: Position,
                   r: Result<bool, (Hash, FetchError)>, served: seq<Block>, trace: seq<Position>, h: Hash)
    requires Round(p, ga, peer, now, before, after, r, served, trace) && h in after.requests
    ensures || h in NotDue(before.requests, before.retryAt, now)
            || (exists i :: 0 <= i < |served| && served[i].prev == h)
            || (r.Err? && h == r.error.0)
  {
    hide Step, Due, NotDue;
    FetchedQueue(p, ga, peer, ByDigest(Due(before.requests, before.retryAt, now)), now, served, trace,
                 if r.Ok? then None else Some(r.error.1), |served|);
  }

  // ----- Polls -----

  datatype PollError = NoTip | NoBlock(height: nat, cause: FetchError) | NoParent(hash: Hash, because: FetchError)

  /** Blocks that requests brought, and the positions between them. */
  datatype Fetching = Fetching(served: seq<Block>, trace: seq<Position>)

  function Min(a: nat, b: nat): (r: nat) { if a < b then a else b }

  /** The last height to download. */
  function Target(local: nat, remote: nat): (r: nat)
    requires local <= U64_MAX
    ensures local <= r
  {
    if remote <= local then local else Min(remote, SatAdd64(local, MAX_BLOCKS_PER_SYNC))
  }

  /** One poll: heights above the local tip first, if the peer's tip is higher, then missing parents. */
  ghost predicate Polled(p: Protocol, ga: Accounts, peer: Peer, now: u64, before: Position, after: Position,
                         r: Result<bool, PollError>, down: Fetching, round: Fetching)
  {
    var tip := peer(GetTip);
    if tip.None? || !tip.value.Tip? then r == Err(NoTip) && after == before
    else
      var local := BestHeight(before.fc);
      var wanted := Heights(local, Target(local, tip.value.height));
      var failed := if r.Err? && r.error.NoBlock? then Some(r.error.cause) else None;
      && Fetched(p, ga, peer, wanted, now, down.served, down.trace, failed) && down.trace[0] == before
      && var mid := down.trace[|down.served|];
         match r
         case Err(NoTip) => false
         case Err(NoBlock(height, cause)) => after == mid && height == local + 1 + FailedAt(down.served, cause)
         case Err(NoParent(h, cause)) =>
           Round(p, ga, peer, now, mid, after, Err((h, cause)), round.served, round.trace)
         case Ok(synced) =>
           var asked := Due(mid.requests, mid.retryAt, now) != [];
           Round(p, ga, peer, now, mid, after, Ok(asked), round.served, round.trace)
           && synced == (tip.value.height > local || asked)
  }

  method PollPeer(node: Node, peer: Peer, now: u64)
    returns (r: Result<bool, PollError>, ghost down: Fetching, ghost round: Fetching)
    requires node.Valid()
    modifies node`ledger, node`fc, node`orphans, node`children, node`requests, node`requested, node`retryAt
    modifies node.mempool, node.cache, node.storage
    ensures node.Valid()
    ensures Polled(node.p, node.genesisAccounts, peer, now, old(At(node)), At(node), r, down, round)
  {
    hide Fetched, Requeued, TakenOut, Due, Node.Core, Node.Orphaned, BestHeight;
    NodeFacts(node);
    down, round := Fetching([], []), Fetching([], []);
    var reply := peer(GetTip);
    if reply.None? || !reply.value.Tip? { return Err(NoTip), down, round; }
    var tip, local := reply.value.height, node.TipHeight();
    var target := Target(local, tip);
    ghost var served, trace;
    var failed;
    failed, served, trace := DownloadHeights(node, peer, local, target, now);
    down := Fetching(served, trace);
    if failed.Some? { return Err(NoBlock(failed.value.0, failed.value.1)), down, round; }
    var requested;
    requested, served, trace := RequestMissingParentBlocks(node, peer, now);
    round := Fetching(served, trace);
    if requested.Err? { return Err(NoParent(requested.error.0, requested.error.1)), down, round; }
    return Ok(tip > local || requested.value), down, round;
  }
}
