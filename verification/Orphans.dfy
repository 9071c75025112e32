/** Blocks whose parent is unknown: the pool, its index by parent, and the request queue. */
module Orphanage {
  import opened Types
  import opened Protocols
  import opened Ordered

  const MAX_ORPHAN_BLOCKS: nat := 1024
  const MAX_ORPHAN_HEIGHT_DISTANCE: nat := 512
  const ORPHAN_BLOCK_TTL_SECS: nat := 10 * 60
  const MISSING_PARENT_RETRY_SECS: nat := 5

  datatype Orphan = Orphan(block: Block, receivedAt: u64)
  type Orphans = map<Hash, Orphan>
  type Children = map<Hash, seq<Hash>>

  ghost predicate NoRepeats(s: seq<Hash>)
  {
    forall i, j :: 0 <= i < j < |s| ==> s[i] != s[j]
  }

  function Members(s: seq<Hash>): (r: set<Hash>)
  {
    set h | h in s
  }

  /** `c` is an orphan of `parent`. */
  ghost predicate Waiting(p: Protocol, orphans: Orphans, parent: Hash, c: Hash)
  {
    c in orphans && orphans[c].block.prev == parent && p.hash(orphans[c].block) == c && orphans[c].block.height > 0
  }

  /** One list of the index: non-empty, no repeats, only orphans of that parent. */
  ghost predicate Family(orphans: Orphans, pending: set<Hash>, parent: Hash, list: seq<Hash>)
  {
    && list != []
    && NoRepeats(list)
    && (forall c :: c in list ==> c in orphans && c !in pending && orphans[c].block.prev == parent)
  }

  /** Every orphan outside `pending` is listed exactly once, under its parent, and nothing else
      is listed; no list is empty. */
  ghost predicate Indexed(p: Protocol, orphans: Orphans, children: Children, pending: set<Hash>)
  {
    && (forall h :: h in orphans ==> p.hash(orphans[h].block) == h && orphans[h].block.height > 0)
    && (forall parent :: parent in children ==> Family(orphans, pending, parent, children[parent]))
    && (forall h :: h in orphans && h !in pending ==>
          orphans[h].block.prev in children && h in children[orphans[h].block.prev])
  }

  function Keep(s: seq<Hash>, h: Hash): (r: seq<Hash>)
    ensures forall c :: c in r <==> c in s && c != h
    ensures NoRepeats(s) ==> NoRepeats(r)
  {
    if s == [] then []
    else
      var n := |s| - 1;
      var rest := Keep(s[..n], h);
      assert s == s[..n] + [s[n]];
      assert NoRepeats(s) ==> s[n] !in rest;
      rest + if s[n] == h then [] else [s[n]]
  }

  /** The index without one orphan, dropping lists that become empty. */
  function Unlist(children: Children, h: Hash): (r: Children)
  {
    map parent | parent in children && Keep(children[parent], h) != [] :: Keep(children[parent], h)
  }

  lemma KeptFamily(orphans: Orphans, parent: Hash, list: seq<Hash>, h: Hash)
    requires Family(orphans, {}, parent, list) && Keep(list, h) != []
    ensures Family(orphans - {h}, {}, parent, Keep(list, h))
  {
    hide Keep, NoRepeats;
  }

  lemma UnlistKeepsIndexed(p: Protocol, orphans: Orphans, children: Children, h: Hash)
    requires Indexed(p, orphans, children, {})
    ensures Indexed(p, orphans - {h}, Unlist(children, h), {})
  {
    hide Keep, Family;
    var rest, index := orphans - {h}, Unlist(children, h);
    forall k | k in rest ensures rest[k].block.prev in index && k in index[rest[k].block.prev] {
      assert k in Keep(children[orphans[k].block.prev], h);
    }
    forall parent | parent in index ensures Family(rest, {}, parent, index[parent]) {
      KeptFamily(orphans, parent, children[parent], h);
    }
  }

  function Enlist(children: Children, parent: Hash, h: Hash): (r: Children)
  {
    children[parent := (if parent in children then children[parent] else []) + [h]]
  }

  lemma GrownFamily(orphans: Orphans, parent: Hash, list: seq<Hash>, h: Hash, o: Orphan)
    requires h !in orphans && (list == [] || Family(orphans, {}, parent, list))
    ensures Family(orphans, {}, parent, list) ==> Family(orphans[h := o], {}, parent, list)
    ensures o.block.prev == parent ==> Family(orphans[h := o], {}, parent, list + [h])
  {
  }

  lemma EnlistKeepsIndexed(p: Protocol, orphans: Orphans, children: Children, h: Hash, o: Orphan)
    requires Indexed(p, orphans, children, {}) && h !in orphans
    requires p.hash(o.block) == h && o.block.height > 0
    ensures Indexed(p, orphans[h := o], Enlist(children, o.block.prev, h), {})
  {
    var more, index := orphans[h := o], Enlist(children, o.block.prev, h);
    hide Family;
    forall parent | parent in index ensures Family(more, {}, parent, index[parent]) {
      GrownFamily(orphans, parent, if parent in children then children[parent] else [], h, o);
    }
  }

  /** Taking a list out of the index leaves its members pending. */
  lemma TakeKeepsIndexed(p: Protocol, orphans: Orphans, children: Children, parent: Hash)
    requires Indexed(p, orphans, children, {}) && parent in children
    ensures Indexed(p, orphans, children - {parent}, Members(children[parent]))
    ensures NoRepeats(children[parent]) && forall c :: c in children[parent] ==> Waiting(p, orphans, parent, c)
  {
    var pending := Members(children[parent]);
    assert Family(orphans, {}, parent, children[parent]);
    forall k | k in children - {parent} ensures Family(orphans, pending, k, children[k]) {
      assert Family(orphans, {}, k, children[k]);
    }
  }

  /** A pending orphan can leave the pool without touching the index. */
  lemma DropKeepsIndexed(p: Protocol, orphans: Orphans, children: Children, pending: set<Hash>, h: Hash)
    requires Indexed(p, orphans, children, pending) && h in pending
    ensures Indexed(p, orphans - {h}, children, pending - {h})
  {
    forall k | k in children ensures Family(orphans - {h}, pending - {h}, k, children[k]) {
      assert Family(orphans, pending, k, children[k]);
    }
  }

  predicate TooFarAhead(tip: nat, b: Block)
  {
    b.height > if tip + MAX_ORPHAN_HEIGHT_DISTANCE <= U64_MAX then tip + MAX_ORPHAN_HEIGHT_DISTANCE else U64_MAX
  }

  predicate Overdue(o: Orphan, now: u64)
  {
    SatSub(now, o.receivedAt) > ORPHAN_BLOCK_TTL_SECS
  }

  predicate Spent(tip: nat, o: Orphan, now: u64)
  {
    Overdue(o, now) || TooFarAhead(tip, o.block)
  }

  /** The orphans that outlive a prune. */
  function Survivors(orphans: Orphans, tip: nat, now: u64): (r: Orphans)
  {
    map h | h in orphans && !Spent(tip, orphans[h], now) :: orphans[h]
  }

  /** The orphans left after making room for one more. */
  function MakeRoom(orphans: Orphans): (r: Orphans)
    ensures forall h :: h in r ==> h in orphans && r[h] == orphans[h]
    ensures |orphans| < MAX_ORPHAN_BLOCKS ==> r == orphans
    ensures |orphans| >= MAX_ORPHAN_BLOCKS ==>
              exists m :: m in orphans && r == orphans - {m} && forall k :: k in orphans ==> m <= k
  {
    if |orphans| >= MAX_ORPHAN_BLOCKS then orphans - {MinOf(orphans.Keys)} else orphans
  }

  // ----- Missing-parent requests -----

  /** The queue has no repeats and the same members as the request set and the retry table. */
  ghost predicate QueueOk(requests: seq<Hash>, requested: set<Hash>, retryAt: map<Hash, nat>)
  {
    && NoRepeats(requests)
    && (forall h :: h in requests <==> h in requested)
    && requested == retryAt.Keys
  }

  /** How the queue changes when the parent `h` of a block is asked for, or not. */
  ghost predicate Asked(asked: bool, h: Hash, now: nat, requests0: seq<Hash>, retryAt0: map<Hash, nat>,
                        requests: seq<Hash>, retryAt: map<Hash, nat>)
  {
    if asked then
      && requests == (if h in requests0 then requests0 else requests0 + [h])
      && retryAt == retryAt0[h := if h in retryAt0 && retryAt0[h] < now then retryAt0[h] else now]
    else requests == requests0 && retryAt == retryAt0
  }

  predicate IsDue(retryAt: map<Hash, nat>, h: Hash, now: u64)
  {
    (if h in retryAt then retryAt[h] else 0) <= now
  }

  /** The part of a queue that is due, in queue order. */
  function Due(requests: seq<Hash>, retryAt: map<Hash, nat>, now: u64): (r: seq<Hash>)
    ensures forall h :: h in r <==> h in requests && IsDue(retryAt, h, now)
  {
    if requests == [] then []
    else
      var n := |requests| - 1;
      assert requests == requests[..n] + [requests[n]];
      Due(requests[..n], retryAt, now) + if IsDue(retryAt, requests[n], now) then [requests[n]] else []
  }

  /** The part of a queue that is not due yet, in queue order. */
  function NotDue(requests: seq<Hash>, retryAt: map<Hash, nat>, now: u64): (r: seq<Hash>)
    ensures forall h :: h in r <==> h in requests && !IsDue(retryAt, h, now)
    ensures NoRepeats(requests) ==> NoRepeats(r)
  {
    if requests == [] then []
    else
      var n := |requests| - 1;
      assert requests == requests[..n] + [requests[n]];
      NotDue(requests[..n], retryAt, now) + if IsDue(retryAt, requests[n], now) then [] else [requests[n]]
  }

  lemma {:induction false} AllDue(requests: seq<Hash>, retryAt: map<Hash, nat>, now: u64)
    requires forall h :: h in requests ==> IsDue(retryAt, h, now)
    ensures NotDue(requests, retryAt, now) == []
  {
    if requests != [] { AllDue(requests[..|requests| - 1], retryAt, now); }
  }

  /** One pass over the queue. */
  method SplitRequests(requests: seq<Hash>, retryAt: map<Hash, nat>, now: u64)
    returns (ready: seq<Hash>, pending: seq<Hash>)
    ensures ready == Due(requests, retryAt, now) && pending == NotDue(requests, retryAt, now)
  {
    hide IsDue, NoRepeats;
    ready, pending := [], [];
    for i := 0 to |requests|
      invariant ready == Due(requests[..i], retryAt, now) && pending == NotDue(requests[..i], retryAt, now)
    {
      assert requests[..i + 1][..i] == requests[..i];
      if IsDue(retryAt, requests[i], now) {
        ready := ready + [requests[i]];
      } else {
        pending := pending + [requests[i]];
      }
    }
    assert requests[..|requests|] == requests;
  }

  /** Is the block newly taken into the pool? */
  predicate TakesIn(p: Protocol, nodes: map<Hash, Block>, tip: nat, orphans: Orphans, b: Block, now: u64)
  {
    b.height > 0 && !TooFarAhead(tip, b) && p.hash(b) !in nodes && p.hash(b) !in Survivors(orphans, tip, now)
  }

  /** The pool after a block with an unknown parent was offered. */
  function AfterCaching(p: Protocol, nodes: map<Hash, Block>, tip: nat, orphans: Orphans, b: Block,
                        now: u64): (r: Orphans)
  {
    var kept := Survivors(orphans, tip, now);
    if TakesIn(p, nodes, tip, orphans, b, now) then MakeRoom(kept)[p.hash(b) := Orphan(b, now)] else kept
  }

  /** The orphan is recent and near enough to stay: at most ten minutes old and 512 heights up. */
  ghost predicate Lasts(orphans: Orphans, tip: nat, now: u64, h: Hash)
  {
    && h in orphans
    && now <= orphans[h].receivedAt + ORPHAN_BLOCK_TTL_SECS
    && orphans[h].block.height <= tip + MAX_ORPHAN_HEIGHT_DISTANCE
  }

  /** A block is taken in exactly if it is near enough, not known and not waiting already. It makes
      room by evicting the waiting block with the smallest digest, and only from a full pool. */
  lemma CachingExactly(p: Protocol, nodes: map<Hash, Block>, tip: nat, orphans: Orphans, b: Block, now: u64)
    ensures TakesIn(p, nodes, tip, orphans, b, now) <==>
            && 0 < b.height <= tip + MAX_ORPHAN_HEIGHT_DISTANCE && p.hash(b) !in nodes
            && !Lasts(orphans, tip, now, p.hash(b))
    ensures var after, taken := AfterCaching(p, nodes, tip, orphans, b, now), TakesIn(p, nodes, tip, orphans, b, now);
            && (taken ==> p.hash(b) in after && after[p.hash(b)] == Orphan(b, now))
            && (forall h :: h in after && !(taken && h == p.hash(b)) ==>
                  Lasts(orphans, tip, now, h) && after[h] == orphans[h])
            && (forall h :: Lasts(orphans, tip, now, h) && h !in after ==>
                  && taken && |Survivors(orphans, tip, now)| >= MAX_ORPHAN_BLOCKS
                  && forall k :: Lasts(orphans, tip, now, k) ==> h <= k)
  {
    hide MakeRoom;
    var kept := Survivors(orphans, tip, now);
    assert forall h :: h in kept <==> Lasts(orphans, tip, now, h);
    assert forall h :: h in kept ==> kept[h] == orphans[h];
  }

  lemma SurvivorsFewer(orphans: Orphans, tip: nat, now: u64)
    ensures |Survivors(orphans, tip, now)| <= |orphans|
  {
    SubsetSize(Survivors(orphans, tip, now).Keys, orphans.Keys);
  }

  lemma SurvivorsKept(orphans: Orphans, tip: nat, now: u64)
    ensures forall h :: h in Survivors(orphans, tip, now) ==>
              h in orphans && Survivors(orphans, tip, now)[h] == orphans[h]
  {
  }

  /** The pool is at rest: indexed, within its limit, and waiting only for unknown parents. */
  ghost predicate AtRest(p: Protocol, nodes: map<Hash, Block>, orphans: Orphans, children: Children)
  {
    && Indexed(p, orphans, children, {})
    && |orphans| <= MAX_ORPHAN_BLOCKS
    && ParentsUnknown(nodes, orphans)
  }

  ghost predicate ParentsUnknown(nodes: map<Hash, Block>, orphans: Orphans)
  {
    forall h :: h in orphans ==> orphans[h].block.prev !in nodes
  }

  method RemoveOrphan(p: Protocol, orphans: Orphans, children: Children, h: Hash)
    returns (pool: Orphans, index: Children)
    requires Indexed(p, orphans, children, {})
    ensures Indexed(p, pool, index, {}) && pool == orphans - {h}
  {
    UnlistKeepsIndexed(p, orphans, children, h);
    pool, index := orphans - {h}, Unlist(children, h);
  }

  /** Removes, one by one, the orphans that waited too long or lie too far above the tip. */
  method PruneOrphans(p: Protocol, orphans: Orphans, children: Children, tip: nat, now: u64)
    returns (pool: Orphans, index: Children)
    requires Indexed(p, orphans, children, {})
    ensures Indexed(p, pool, index, {}) && pool == Survivors(orphans, tip, now)
    ensures |pool| <= |orphans|
  {
    hide Indexed;
    pool, index := orphans, children;
    var expired := set h | h in orphans && Spent(tip, orphans[h], now);
    ghost var all := expired;
    while expired != {}
      invariant expired <= all
      invariant Indexed(p, pool, index, {}) && pool == orphans - (all - expired)
    {
      var h :| h in expired;
      assert all - (expired - {h}) == (all - expired) + {h};
      pool, index := RemoveOrphan(p, pool, index, h);
      expired := expired - {h};
    }
    assert pool == Survivors(orphans, tip, now);
    SurvivorsFewer(orphans, tip, now);
  }

  /** Evicts the first orphan if the pool is full, then lists the new one under its parent. */
  method TakeIn(p: Protocol, orphans: Orphans, children: Children, b: Block, now: u64)
    returns (pool: Orphans, index: Children)
    requires Indexed(p, orphans, children, {}) && |orphans| <= MAX_ORPHAN_BLOCKS
    requires p.hash(b) !in orphans && b.height > 0
    ensures Indexed(p, pool, index, {}) && pool == MakeRoom(orphans)[p.hash(b) := Orphan(b, now)]
    ensures |pool| <= MAX_ORPHAN_BLOCKS
  {
    hide Indexed;
    pool, index := orphans, children;
    if |pool| >= MAX_ORPHAN_BLOCKS {
      var evicted := MinOf(pool.Keys);
      OneLess(pool, evicted);
      pool, index := RemoveOrphan(p, pool, index, evicted);
    }
    EnlistKeepsIndexed(p, pool, index, p.hash(b), Orphan(b, now));
    pool, index := pool[p.hash(b) := Orphan(b, now)], Enlist(index, b.prev, p.hash(b));
  }

  /** Offers a block with an unknown parent to the pool. */
  method OfferOrphan(p: Protocol, nodes: map<Hash, Block>, tip: nat, orphans: Orphans, children: Children, b: Block,
                     now: u64)
    returns (pool: Orphans, index: Children, taken: bool)
    requires AtRest(p, nodes, orphans, children) && b.prev !in nodes
    ensures AtRest(p, nodes, pool, index) && pool == AfterCaching(p, nodes, tip, orphans, b, now)
    ensures taken == TakesIn(p, nodes, tip, orphans, b, now)
  {
    hide Indexed, Survivors, MakeRoom, TooFarAhead;
    SurvivorsKept(orphans, tip, now);
    pool, index := PruneOrphans(p, orphans, children, tip, now);
    if b.height == 0 || TooFarAhead(tip, b) { return pool, index, false; }
    if p.hash(b) in nodes || p.hash(b) in pool { return pool, index, false; }
    pool, index := TakeIn(p, pool, index, b, now);
    return pool, index, true;
  }
}
