# paqus-node, verified model

A Dafny model of the state machine of a proof-of-work full node, with proofs about it.

The node keeps an active ledger, a tree of all accepted blocks with a chosen tip, a pool of
blocks whose parent is unknown, a queue of parents to ask for, a pool of pending transactions,
an in-memory cache, and an on-disk store. Blocks arrive in any order. The model covers how a
block is checked and accepted, how the node follows the best tip, what waits and what is
requested, how transactions are admitted and selected, what is written to disk and read back,
mining while other threads use the node, and catching up with a peer.

Main results, each for all inputs and all reachable states:

- **One invariant for every run.** In every state reached by deliveries, submissions, prunes,
  queue drains, retries and flushes, the ledger is the replay of the best tip's branch from the
  genesis accounts, cache and disk describe that ledger, the digest table on disk is the block
  tree, the orphan index is exact, and the mempool limits hold (`Runs.PerformAll`).
- **All or nothing.** A block is refused without any change, or is in the tree with everything
  consistent; acceptance depends on nothing but the block's own branch
  (`Nodes.Node.ApplyKnownParentBlock`).
- **Every accepted block is right.** In every reachable state each block of the tree above the root
  carries the difficulty that its parent's branch demands, if any is demanded at all, and the state
  root that executing it on that branch gives (`Consistency.BlockPassed`,
  `Consistency.ChainPassed`); a new block on a known parent gets in if and only if it meets all
  demands (`Consistency.AcceptedExactly`).
- **Order independence.** Unless a run drops an orphan, the tree holds exactly the blocks whose
  whole ancestry was delivered and is valid, whatever the order and repeats
  (`Runs.DeliverInTwoOrders`, `History.TreeIsConnectedBlocks`).
- **Restart.** First start, any run, restart: same ledger, same blocks, same tip
  (`Restart.RunAndRestart`).
- **Mining under interleaving.** A mined block is committed only on the ledger it was prepared
  on (`Mining.CommitPrepared`, `Mining.MineOnce`).
- **Backfill.** Whatever a peer answers, a poll is a sequence of deliveries that ends with the
  first failure (`Sync.PollPeer`). Each poll of an honest peer shortens every gap in the known
  blocks of its chain by one, so polling connects them (`CatchUp.PollUntilConnected`); if what
  connects beats the local branch, further polls make the peer's chain the ledger
  (`CatchUp.CatchUpWith`).
- **Fees decide.** A pending transaction is passed over only for one that pays at least as much as
  some transaction of its own sender at or below its nonce (`FeeOrder.HeldBack`); where no sender
  offers more for a later nonce, no other selection of that size earns more
  (`FeeOrder.GreedyIsBest`).
- **Index equals scan**, **save/load round trip**, **difficulty agreement**, **admission leaves
  a funded chain**, **greedy selection is executable**, **re-admitted transactions are
  unconfirmed**, **the wallet picks the expected nonce**.

Four tempting properties are false of the code. Each has a concrete failing input in
`Counterexamples` and its exact condition:

- Order independence on a node without genesis accounts: two blocks that could both be accepted
  end in the same tree in both orders if and only if neither becomes the best tip when it comes
  first (`Consistency.FirstComeOnly`). There the code refuses side blocks, while
  src/runtime/node/test.rs:160-187 expects one to be kept; the model follows the code.
- Silence about repeats: a block that is in the tree already can be reported as an error, because it
  is validated again first. It is not reported if and only if it is above genesis, still meets the
  demands of its branch and, without genesis accounts, sits on the active tip, or the ledger itself
  calls it a duplicate (`Nodes.Node.ApplyBlock`, `Consistency.VerdictKinds`). With genesis accounts
  the demands are met from some time on (`Consistency.RepeatStaysSilent`).
- Contiguity of a sender's pending nonces under expiry (`Pruning.PruneKeepsChain`).
- Disjointness of pool and chain after a reorg (`Readmission.DisjointAfterReorg`).

## What is assumed

Blocks, transactions, ledger execution, consensus checks and fork choice come from the `paqus`
library, whose code is not part of this model. They enter as a record of total functions
(`Protocols.Protocol`), and every theorem is stated for all records that satisfy
`Protocols.Lawful`: digests do not collide and are never zero; executing a block above genesis
touches only sender, receiver and miner accounts (genesis may create others); each executed
transaction carries its sender's current nonce, which then rises; the state root does not depend
on difficulty, nonce or the root field; a block that passes the next-block check is one higher
than its parent, has positions that fit 32 bits, and still passes later; a block that passes the
genesis check has a zero parent digest.
Fork choice is a parent-closed tree in which an insertion makes the new block the best tip or
keeps the old one, by an arbitrary rule; where a result needs more, the rule "move exactly to
branches that rank above the present one" is a stated premise (`Ranks.RankRule`). The rank may be
any strict one, such as cumulative work with or without a tie-break by digest. `Instance` gives a
concrete record that meets all of this.

The clock is an argument, read once per call. Disk writes succeed. Byte encodings are
bijections. The ancestor walk of a tip starts with the tip itself.

## Model

| member | source | states |
|---|---|---|
| `ForkTree.BranchStable` | src/runtime/node/node.rs:460-488 | a block keeps its branch when the tree grows, so nothing said about a branch is ever withdrawn |
| `ForkTree.AncestorsReverseBranch` | src/runtime/node/node.rs:518-530 | the ancestor walk from a tip is that tip's branch read backwards |
| `ForkTree.BranchAboveAncestor` | src/runtime/node/node.rs:475-481 | the path from an ancestor to a tip is exactly the part of the tip's branch above that ancestor |
| `ForkTree.AdvancedGrows` | src/runtime/node/node.rs:188-193 | over any sequence of insertions the tree only grows, and the best tip stays or moves to a newly inserted block |
| `Ranks.AdvancedKeepsTop` | src/runtime/node/node.rs:188-193 | under fork choice by any strict rank, after any sequence of insertions no branch beats the best one, and the best one beats every part of itself |
| `Ranks.AdvancedKeepsBest` | src/runtime/node/node.rs:490-516 | under that rule, inserting blocks none of which beats the best tip leaves the best tip alone |
| `Ranks.TieBreakDecides` | src/runtime/node/node.rs:188-193 | ranked by work and then by digest, no two blocks of a tree tie |
| `Replays.ReplayFails` | src/runtime/node/node.rs:483-486 | the first block that cannot be executed decides the outcome of replaying a branch |
| `Replays.ReplayLinks` | src/runtime/node/node.rs:483-486 | a branch that can be executed is a linked chain: every block above the root has the height of its place and names the block below as its parent |
| `Replays.HeaderVerdict` | src/runtime/node/node.rs:543-554 | the header check passes if and only if the block carries the demanded difficulty, passes the next-block check and agrees with the checkpoints |
| `Replays.StateVerdict` | src/runtime/node/node.rs:405-414 | the state check passes if and only if the block can be executed and carries the state root this gives, not zero above genesis |
| `Replays.BranchVerdict` | src/runtime/node/node.rs:185-190 | all checks pass if and only if the branch can be replayed and both sets of demands hold |
| `Consistency.AcceptKeepsConsistent` | src/runtime/node/node.rs:185-220 | inserting a block that passes the checks of its own branch keeps every branch executable; the old ledger stays right if the tip did not move, and otherwise the new branch executes to the block applied on its parent |
| `Consistency.AcceptedExactly` | src/runtime/node/node.rs:185-190 | a block is accepted if and only if it is new, its parent is known, it meets the demands of its own branch (difficulty, next-block check, checkpoint, execution, state root) and, without genesis accounts, it sits on the active tip |
| `Consistency.VerdictKinds` | src/runtime/node/node.rs:185-190 | what every verdict means: which error is given for genesis blocks, unknown parents, each failed demand, side blocks without genesis accounts and repeats, in the order of the checks |
| `Consistency.RepeatStaysSilent` | src/runtime/node/node.rs:164-183 | from some time on a known block is never reported as an error again |
| `Counterexamples.RepeatReported` | src/runtime/node/node.rs:164-190 | the active tip itself, delivered again to a node without genesis accounts, and genesis, delivered again to any node, are reported as errors |
| `Consistency.BlockPassed` | src/runtime/node/node.rs:381-414 | every block of the tree above the root carries the demanded difficulty, passed the next-block check at some clock reading, agrees with the checkpoints, and carries the state root that executing it on its parent's branch gives |
| `Consistency.ChainPassed` | src/runtime/node/node.rs:532-555 | the same along the active chain, in terms of the ledger's own blocks |
| `Consistency.FirstComeOnly` | src/runtime/node/node.rs:381-403 | two acceptable blocks end in the same tree in both orders if and only if there are genesis accounts or neither becomes the best tip when it comes first |
| `Consistency.LateSiblingRefused` | src/runtime/node/node.rs:394-396 | without genesis accounts, of two blocks acceptable on the tip the second is refused for want of genesis state once the first has become best |
| `Counterexamples.OrderMatters` | src/runtime/node/node.rs:394-396 | two sibling blocks on genesis, both acceptable, that give two different trees in the two orders on a node without genesis accounts |
| `Consistency.ConfirmedOnce` | src/runtime/node/node.rs:460-488 | no transaction digest is confirmed in two blocks of an executable branch |
| `Consistency.ReplayConfirms` | src/runtime/node/node.rs:460-488 | every transaction confirmed on an executed branch lies below its sender's account nonce |
| `Consistency.SavedBranchCompletesTable` | src/runtime/storage/storage.rs:453-512 | saving the best branch after an insertion makes the digest table equal to the tree |
| `Nodes.GenesisParentUnknown` | src/runtime/node/node.rs:532-538 | a block that passes the genesis check never names a known parent |
| `Nodes.BuildForkChoice` | src/runtime/node/node.rs:103-108 | indexing a linked chain yields the tree of exactly its blocks, in which each block's branch is the chain up to it |
| `Nodes.Node.constructor` | src/runtime/node/node.rs:96-123 | a new node has an empty pool, a cache equal to a rebuild from the ledger, and the tree of the ledger's chain |
| `Nodes.Node.LedgerForBranchTip` | src/runtime/node/node.rs:460-488 | the loop computes the replay of the tip's branch from the genesis accounts, with the first execution error, or reports an unknown tip |
| `Nodes.Node.NextDifficultyAfterBranchTip` | src/runtime/node/node.rs:608-640 | below one interval the starting difficulty; otherwise the retarget of the tip against its one ancestor an interval below, oldest timestamp first |
| `Nodes.Node.NextDifficulty` | src/runtime/node/node.rs:584-606 | in every consistent state the stored heights give the difficulty demanded on top of the active chain |
| `Nodes.Node.DifficultyBothWays` | src/runtime/node/node.rs:584-640 | the miner's difficulty from stored heights and the validator's from the ancestor walk are both the difficulty demanded on top of the active chain |
| `Nodes.Node.ValidateBlockForKnownParent` | src/runtime/node/node.rs:532-555 | passes if and only if difficulty, next-block check and checkpoint hold on the parent's branch, and otherwise names the first that fails; unknown parents and genesis blocks are reported as such |
| `Nodes.Node.ValidateBlockStateForKnownParent` | src/runtime/node/node.rs:381-403 | on the active ledger, or elsewhere on the replay of the parent's branch: passes if and only if the block executes and carries the state root this gives, and otherwise names the first failure; without genesis accounts every block off the active tip is refused |
| `Nodes.Node.CommonAncestor` | src/runtime/node/node.rs:518-530 | the result is on both branches and no shared block is higher; it exists if and only if both tips are known |
| `Nodes.Node.ExtendActiveTip` | src/runtime/node/node.rs:204-219 | after an extension ledger, cache, disk and tree agree again, and exactly the block's transactions left the pool |
| `Nodes.Node.ReorgToBestTip` | src/runtime/node/node.rs:416-458 | after a reorg ledger, cache and disk are those of the winning branch and the pool is the old one after exactly the abandoned transactions were offered in chain order; without genesis accounts it fails |
| `Nodes.Node.WinningAreChain` | src/runtime/node/node.rs:440-444 | the digests that decide what was abandoned are exactly those of the new active chain |
| `Nodes.Node.KeepAsSideBlock` | src/runtime/node/node.rs:191-196 | a block that does not become the best tip changes only the tree and the digest table |
| `Nodes.Node.ApplyKnownParentBlock` | src/runtime/node/node.rs:185-220 | all or nothing: the call fails with the verdict of the state it met and changes nothing, or succeeds and the block is in the tree and the whole node is consistent again; it succeeds exactly for acceptable blocks |
| `Nodes.Node.InsertValidBlock` | src/runtime/node/node.rs:188-220 | a block that passed validation can always be applied: the later execution or reorg replay cannot fail |
| `Nodes.Node.SubmitTransaction` | src/runtime/node/node.rs:155-162 | a submitted transaction is admitted or refused against the active ledger; a refusal changes nothing beyond pruning |
| `Nodes.Node.FlushToStorage` | src/runtime/node/node.rs:642-645 | writing the ledger again leaves the disk describing the active ledger and the digest table equal to the tree |
| `Nodes.Node.PruneExpiredOrphans` | src/runtime/node/node.rs:340-353 | an orphan stays if and only if it arrived at most ten minutes ago and lies at most 512 heights above the tip; the index follows |
| `Nodes.Node.CacheOrphanBlock` | src/runtime/node/node.rs:222-256 | the pool afterwards is exactly the pruned pool with room made and the block added, or unchanged when the block is not taken; the parent is asked for exactly when it is taken |
| `Nodes.Node.QueueMissingParentRequestAt` | src/runtime/node/node.rs:265-276 | a request is queued at most once, keeps its earliest retry time, and is never queued for a known block |
| `Nodes.Node.DrainMissingParentRequests` | src/runtime/node/node.rs:282-301 | exactly the requests whose retry time has come leave the queue, in queue order; queue, request set and retry table keep the same members |
| `Nodes.Node.RetryMissingParentRequest` | src/runtime/node/node.rs:303-308 | a failed request is queued again with its retry time, keeping an earlier one; all other requests stay as they are |
| `Nodes.Node.TryOrphan` | src/runtime/node/node.rs:366-377 | an orphan taken out for its known parent is accepted, already known, or refused by its own branch; it is never put back |
| `Nodes.Node.PopWorklist` | src/runtime/node/node.rs:359-379 | each pop lowers the number of orphans plus the length of the worklist, and every orphan with a known parent stays covered by the worklist |
| `Nodes.Node.DrainWorklist` | src/runtime/node/node.rs:355-379 | the drain terminates with an empty worklist |
| `Nodes.Node.ProcessOrphansForParent` | src/runtime/node/node.rs:355-379 | afterwards no orphan has a known parent, the tree grew by valid orphans only, and every surviving orphan is waiting, connected, or refused by its own branch |
| `Nodes.Node.ApplyBlock` | src/runtime/node/node.rs:164-183 | every delivery keeps the whole node invariant; an error is reported if and only if the verdict is one other than a fork-choice error or a ledger duplicate, so success means that the block got in, waits for its parent, or is a repeat; an accepted block is inserted first and its waiting descendants after it; nothing delivered or waiting is lost except refused blocks and those dropped for a stated reason; the parent is asked for exactly when the block starts to wait |
| `Nodes.Node.IndexStoredBlocks` | src/runtime/node/node.rs:490-516 | whatever is stored, no stored block is left out whose parent is in the tree; if the stored blocks form a tree, all are indexed |
| `Indexing.IndexPass` | src/runtime/node/node.rs:494-513 | a pass without progress leaves only blocks whose parent is not indexed; a pass with progress leaves fewer blocks |
| `Indexing.IndexAll` | src/runtime/node/node.rs:490-516 | the passes terminate for any stored blocks and leave none whose parent is indexed; a stored tree is indexed completely, by insertions on known parents |
| `Orphanage.SplitRequests` | src/runtime/node/node.rs:282-301 | one pass computes the due and the not yet due part of the queue, each in queue order |
| `Orphanage.RemoveOrphan` | src/runtime/node/node.rs:321-338 | removal keeps each remaining orphan listed exactly once under its parent, with no empty list |
| `Orphanage.PruneOrphans` | src/runtime/node/node.rs:340-353 | removing the expired orphans one by one gives exactly the survivors, indexed |
| `Orphanage.OfferOrphan` | src/runtime/node/node.rs:222-256 | the pool stays indexed, within 1024 blocks, and without orphans of known blocks |
| `Orphanage.CachingExactly` | src/runtime/node/node.rs:222-256 | a block is taken in exactly if it is at most 512 heights up, not known and not waiting already; only from a full pool one waiting block is evicted, the one with the smallest digest |
| `Drain.VerdictsStable` | src/runtime/node/node.rs:355-379 | acceptance and refusal of a block by its branch do not change as the tree grows |
| `History.SettledStep` | src/runtime/node/node.rs:164-183 | one more delivery without drops extends the account of which delivered blocks are connected, waiting or refused |
| `History.TreeHasAncestry` | src/runtime/node/node.rs:164-183 | every block in the tree has a delivered and valid ancestry: its branch |
| `History.AncestryReachesTree` | src/runtime/node/node.rs:355-379 | every delivered block with a delivered and valid ancestry is in the tree |
| `History.TreeIsConnectedBlocks` | src/runtime/node/node.rs:164-183 | the tree holds exactly the blocks whose whole ancestry was delivered and is valid |
| `History.OrderIndependence` | src/runtime/node/node.rs:164-183 | two runs over the same set of blocks, in any orders and with repeats, end with the same tree |
| `Runs.PerformAll` | src/runtime/node/node.rs:155-183 | every run of deliveries, submissions, prunes, queue drains, retries and flushes at any clock readings keeps the node invariant; its states follow the events one by one, and only deliveries change tree and orphan pool |
| `Runs.DeliverAll` | src/runtime/node/node.rs:164-183 | delivering a list at a fixed clock is a run whose steps name every dropped block; if none is dropped, the tree is determined by the set of blocks delivered or waiting |
| `Runs.RunSettles` | src/runtime/node/node.rs:164-183 | along any run of deliveries that drops nothing, every delivered block is connected, waiting, or refused by its own branch |
| `Runs.NothingDropped` | src/runtime/node/node.rs:222-256 | with fewer than 1024 blocks inside a window of 512 heights at a fixed clock, no reason to drop a block ever applies |
| `Runs.WindowRunIsLossless` | src/runtime/node/node.rs:222-256 | fewer than 1024 blocks inside a window of 512 heights are delivered in any order without a drop |
| `Runs.DeliverWindow` | src/runtime/node/node.rs:164-183 | such a window of blocks can be delivered in any order with nothing dropped |
| `Runs.DeliverInTwoOrders` | src/runtime/node/node.rs:164-183 | two nodes that receive the same set of blocks in different orders, with repeats, and drop none, end with the same tree: exactly the blocks with a full valid delivered ancestry |
| `Runs.SameTreeSameLedger` | src/runtime/node/node.rs:188-193 | under fork choice by rank, of two nodes with the same tree neither tip beats the other, and their ledgers are equal if no other block ties with the tip |
| `Runs.TieBreakSameLedger` | src/runtime/node/node.rs:188-193 | ranked by work and then by digest, two nodes with the same tree have the same ledger |
| `Runs.CalmRunIsLossless` | src/runtime/node/node.rs:222-256 | a run in which no reason to drop a block ever applies drops nothing |
| `Readmission.Readmit` | src/runtime/node/node.rs:441-452 | the pool after a reorg is the old pool after offering exactly the abandoned transactions in chain order |
| `Readmission.AbandonedInOrder` | src/runtime/node/node.rs:445-452 | the abandoned transactions come block by block, lower blocks first, all of each block off the winning branch and none of the others |
| `Readmission.ReorgKeepsPoolUnconfirmed` | src/runtime/node/node.rs:436-452 | every entry was in the pool before, or is an abandoned transaction that is confirmed nowhere on the winning branch |
| `Readmission.OffersKeepOverlap` | src/runtime/node/node.rs:441-452 | after a reorg that offers a transaction, the pool entries confirmed on the winning branch are exactly the unexpired old ones confirmed there |
| `Readmission.DisjointAfterReorg` | src/runtime/node/node.rs:416-458 | pool and winning branch are disjoint after a reorg if and only if every old entry confirmed there has expired and something was offered |
| `Counterexamples.ReorgLeavesConfirmed` | src/runtime/node/node.rs:441-452 | three deliveries and one admitted transaction after which, by the re-admission of a reorg, the pool still holds a transaction that the winning branch confirms |
| `Caches.CoreCache.RebuildFrom` | src/runtime/cache.rs:21-35 | a rebuild mirrors the ledger exactly |
| `Caches.CoreCache.InsertBlock` | src/runtime/cache.rs:45-53 | inserting the next block extends the index by exactly that block and moves the tip |
| `Caches.CoreCache.RefreshTouched` | src/runtime/node/node.rs:207-217 | refreshing sender, receiver and miner accounts in turn gives the account table of the new ledger |
| `Caches.RefreshIsComplete` | src/runtime/node/node.rs:207-217 | refreshing sender, receiver and miner is enough: no other account can differ |
| `Caches.CoreCache.AdvanceTo` | src/runtime/node/node.rs:206-217 | the incrementally updated cache equals a rebuild from the new ledger |
| `Storages.Storage.EnsureStorageVersion` | src/runtime/storage/storage.rs:130-154 | succeeds exactly on the supported version or on an unmarked empty database, which it marks |
| `Storages.Storage.SaveLedger` | src/runtime/storage/storage.rs:453-512 | succeeds exactly when every transaction position fits 32 bits; then the canonical tables and the snapshot row describe the ledger whatever was there before and the digest table only gains the chain's blocks; otherwise nothing changes |
| `Storages.Storage.SaveSideBlock` | src/runtime/storage/storage.rs:176-187 | only the digest table gains the block |
| `Storages.Storage.ValidateChainIntegrity` | src/runtime/storage/storage.rs:574-623 | accepts exactly the stores whose heights up to the tip are present, hash-linked and zero-rooted and end at the stored tip |
| `Storages.Storage.LoadLedger` | src/runtime/storage/storage.rs:514-546 | succeeds exactly on intact stores with well-keyed accounts and returns the stored accounts and chain |
| `Storages.Storage.LoadStateSnapshot` | src/runtime/storage/storage.rs:403-424 | a snapshot is handed out exactly when its height and state root match; on a saved ledger the one snapshot there is carries the ledger's accounts |
| `Storages.HeldChainIsStored` | src/runtime/storage/storage.rs:574-623 | a saved linked chain passes the integrity check and reads back as itself |
| `Storages.IntactIsChained` | src/runtime/storage/storage.rs:574-623 | a store that passes the integrity check holds a linked chain |
| `Storages.SaveThenLoad` | src/runtime/storage/storage.rs:453-546 | loading after saving returns the saved ledger, whatever the database held |
| `Storages.Storage.LoadTransaction` | src/runtime/storage/storage.rs:297-327 | on a saved chain the digest index finds the latest confirmation, without an integrity error |
| `Storages.Storage.LoadAddressTransactionLocations` | src/runtime/storage/storage.rs:329-346 | on a saved chain the address index lists exactly the rows of a scan from genesis, in the same order |
| `Storages.IndexBlock` | src/runtime/storage/storage.rs:189-246 | writes the rows of every transaction of a block, or fails exactly when a position exceeds 32 bits |
| `TxIndex.IndexFindsLast` | src/runtime/storage/storage.rs:189-246 | the digest index always points at the latest confirmation |
| `TxIndex.IndexAgreesWithScan` | src/main.rs:2263-2283 | index and scan name the same block if and only if the digest is confirmed in at most one block |
| `TxIndex.IndexRows` | src/runtime/storage/storage.rs:215-243 | an address row exists exactly when the scan meets it, and they agree on it; a self-transfer has one row |
| `TxIndex.ByteKeysAreFaithful` | src/runtime/storage/storage.rs:329-346 | with 20-byte addresses, rows of the address index never collide as byte keys, and an address prefix selects exactly that address's rows |
| `Keys.AddressKeyInjective` | src/runtime/storage/storage.rs:695-702 | different rows have different byte keys |
| `Keys.AddressPrefix` | src/runtime/storage/storage.rs:329-346 | the byte prefix of an address selects exactly that address's keys |
| `Explorer.IndexIsScan` | src/main.rs:2263-2283 | on every executable chain the digest index and the scan from genesis agree on block and position |
| `Explorer.ScanForTransaction` | src/main.rs:2263-2283 | the nested loops find the first confirmation on the active chain |
| `Explorer.LookUpBothWays` | src/runtime/storage/storage.rs:297-327 | in every reachable state index and scan both name the one confirmation of a digest on the active chain, and find one exactly for confirmed digests |
| `Explorer.FindTransaction` | src/main.rs:2256-2284 | pool first, then the chain; on the chain the answer is the indexed location |
| `Explorer.ScanAddress` | src/main.rs:2289-2325 | the scan lists the confirmed transactions of an address in chain order, self-transfers once |
| `Explorer.ScanMined` | src/main.rs:2289-2312 | the scan lists the rewarded blocks of a miner in chain order |
| `Explorer.MinedRowsMembers` | src/main.rs:2298-2312 | exactly the rewarded blocks of the miner are listed, with confirmations and maturity counted from the tip |
| `Explorer.AddressActivity` | src/main.rs:2286-2339 | the answer lists rewarded blocks, and confirmed then pending transactions, latest first; the confirmed ones are those of the address index |
| `Explorer.InvolvingExactly` | src/main.rs:2327-2331 | exactly the pending transactions that the address sends or receives are listed |
| `Explorer.InvolvingInOrder` | src/main.rs:2327-2331 | they are listed in pool order |
| `Explorer.ListBothWays` | src/runtime/storage/storage.rs:329-346 | in every reachable state the address index lists what the scan lists, in the same order |
| `Restart.ValidNodeLeavesDisk` | src/runtime/node/node.rs:188-219 | in every reachable state the digest table on disk is the block tree and the canonical tables are the active ledger |
| `Restart.SameTip` | src/runtime/node/node.rs:129-153 | rebuilding the tree from disk chooses the same tip again under fork choice by any strict rank |
| `Restart.BuildNode` | src/runtime/node/node.rs:96-123 | a node built on any stored chain holds that chain and every stored block that can be attached to it |
| `Restart.StartNode` | src/runtime/node/node.rs:143-152 | a node built on what another left behind has its ledger and block set and an empty pool; it is valid if and only if it chose the same tip, which fork choice by rank guarantees |
| `Restart.SaveGenesis` | src/runtime/node/node.rs:133-141 | in a database without a tip genesis is written over whatever is there; in an unused one that is what a node that knows only genesis leaves behind |
| `Restart.OpenLedger` | src/runtime/node/node.rs:129-141 | the ledger is the stored one, or genesis written to a database without a tip; it is a linked chain, and the one a node left behind comes back as it was |
| `Restart.InitOrLoad` | src/runtime/node/node.rs:129-153 | opening fails exactly on an unsupported version, a broken chain or misfiled accounts; otherwise no stored block is left out whose parent is in the tree, and what a node left behind comes back as its ledger and block set, with the same tip under fork choice by rank |
| `Restart.RunAndRestart` | src/runtime/node/node.rs:129-183 | first start, any run of events, restart: the first node follows the events step by step, and the second is valid and has the ledger, block set and tip that the run ended with |
| `Mempools.Mempool.PruneExpired` | src/runtime/mempool/mempool.rs:314-331 | an entry paying at least the market fee survives if and only if its age is within the full lifetime, a cheaper one if and only if within the short one; survivors are unchanged and the byte counter is exact afterwards |
| `Mempools.Mempool.ValidateAgainstLedgerExcluding` | src/runtime/mempool/mempool.rs:215-274 | the loop over the sorted pending transactions computes the ledger verdict |
| `Mempools.Mempool.Remove` | src/runtime/mempool/mempool.rs:276-283 | removes one entry; an exact counter stays exact |
| `Mempools.Mempool.InsertUnchecked` | src/runtime/mempool/mempool.rs:110-152 | refuses duplicates and anything over either limit without changing the pool; otherwise replaces or adds, with an exact counter |
| `Mempools.Mempool.InsertValidatedAt` | src/runtime/mempool/mempool.rs:95-108 | the outcome is the admission decision on the pruned pool; a refusal changes nothing beyond pruning; limits hold and the counter is exact |
| `Mempools.Mempool.RemoveConfirmed` | src/runtime/mempool/mempool.rs:429-433 | exactly the block's transactions go; the counter is left as it was and still covers the pool |
| `Mempools.Mempool.PendingBalance` | src/runtime/node/node.rs:681-700 | incoming and outgoing are the sums over the pool, capped at 32 bits, in whatever order the pool is visited |
| `MempoolRules.BalancesMove` | src/runtime/node/node.rs:681-700 | each entry adds its amount to what its receiver expects and amount plus fee to what leaves its sender |
| `MempoolRules.AdmissionExactly` | src/runtime/mempool/mempool.rs:95-152 | a transaction is admitted exactly when its timestamp is at most a day old and not too far ahead, it is signed, pays a positive fee of at least the minimum, outbids the pending transaction it replaces, continues its sender's funded chain, is new and fits the limits |
| `MempoolRules.AdmissionRefused` | src/runtime/mempool/mempool.rs:95-152 | the reason a refusal gives, in the order of the checks |
| `MempoolRules.LedgerVerdictExactly` | src/runtime/mempool/mempool.rs:215-274 | the ledger check passes exactly for signed transactions with enough fee that continue the sender's funded chain |
| `MempoolRules.WalkMeaning` | src/runtime/mempool/mempool.rs:232-262 | a successful walk means consecutive nonces from the account nonce and prefix costs within the balance |
| `MempoolRules.AdmissionGivesFundedChain` | src/runtime/mempool/mempool.rs:215-274 | from any pool, an admission leaves the sender's pending transactions a funded chain from the account nonce, with the new one last |
| `MempoolRules.ReplacementIsHighest` | src/runtime/mempool/mempool.rs:154-176 | a fee replacement is only ever admitted on the sender's highest pending nonce |
| `MempoolRules.ConsecutiveUnlessSaturated` | src/runtime/mempool/mempool.rs:230-262 | the chain's nonces are exactly consecutive if and only if it ends below the 64-bit ceiling |
| `MempoolRules.OutgoingWithinFunds` | src/runtime/node/node.rs:681-700 | after an admission the pending outgoing amount is the exact sum of the sender's chain and at most the available balance |
| `MempoolRules.AdmittedNonce` | src/runtime/mempool/mempool.rs:225-262 | an admitted transaction has not been executed on the ledger it was admitted against |
| `Pruning.PruneKeepsChain` | src/runtime/mempool/mempool.rs:314-331 | a prune leaves a sender's funded chain a funded chain if and only if it drops no transaction with a lower nonce than one it keeps |
| `Counterexamples.PruneLeavesGap` | src/runtime/mempool/mempool.rs:314-331 | two transfers admitted one after the other, of which the lower nonce expires first, leaving no chain |
| `Selection.SelectForBlock` | src/runtime/mempool/mempool.rs:333-381 | returns min(limit, pool size) transactions; at each turn no other sender's head pays a higher fee, with equal fee none has a lower nonce, and with both equal none a smaller digest |
| `FeeOrder.HeldBack` | src/runtime/mempool/mempool.rs:346-379 | a transaction passed over for one of another sender is held back by one of its own sender, with no higher nonce and not picked before, that pays no more than the pick |
| `FeeOrder.QueueNonces` | src/runtime/mempool/mempool.rs:341-344 | each sender's queue is ordered by nonce and then by digest |
| `FeeOrder.TopFees` | src/runtime/mempool/mempool.rs:346-379 | where no sender offers more for a later nonce, nothing left out pays more than anything picked |
| `FeeOrder.GreedyIsBest` | src/runtime/mempool/mempool.rs:333-381 | and no other choice of as many pending transactions pays more fees in total |
| `FeeOrder.ChosenFees` | src/runtime/mempool/mempool.rs:397-403 | the fee sum of a selection is the fee total of its pool entries |
| `Selection.GreedyUnique` | src/runtime/mempool/mempool.rs:358-376 | the greedy order is determined: two greedy selections of the same length are equal |
| `Selection.PicksArePrefix` | src/runtime/mempool/mempool.rs:340-356 | the picks of each sender are a prefix of its nonce-ordered queue |
| `SelectionProperties.SelectionDistinct` | src/runtime/mempool/mempool.rs:333-381 | no transaction is picked twice and only pool members are picked |
| `SelectionProperties.SelectionExecutes` | src/runtime/mempool/mempool.rs:333-381 | if every sender's pending set is a funded contiguous chain, the selection can be executed in order |
| `Mining.SumFees` | src/runtime/mempool/mempool.rs:398-403 | the 32-bit fee sum, which is the true sum if and only if that fits 32 bits |
| `Mining.CreateCandidateBlock` | src/runtime/mempool/mempool.rs:383-427 | the candidate sits on the ledger's tip, carries the greedy selection and the state root its execution gives, and its coinbase pays the subsidy and the fee sum; it fails only if the subsidy is undefined or the draft cannot be executed |
| `Mining.CandidateOrNone` | src/runtime/mempool/mempool.rs:383-427 | the two outcomes exclude each other |
| `Mining.SelectedUnique` | src/runtime/mempool/mempool.rs:333-381 | a pool has only one greedy selection of a given size |
| `Mining.PrepareCandidateBlock` | src/runtime/miner/miner.rs:39-58 | setting the difficulty leaves the state root right; it fails only as the candidate does |
| `Mining.MinePreparedBlock` | src/runtime/miner/miner.rs:60-87 | the search returns the least solving nonce, gives up exactly when no nonce below the limit solves, and stops at the first failing digest computation |
| `Mining.SearchMeans` | src/runtime/miner/miner.rs:60-87 | the digest of a found block meets the difficulty; without a result every nonce below the limit has a digest that does not |
| `Mining.SameTipSameLedger` | src/main.rs:2923-2926 | if the tree only grew and the tip is the same again, the ledger is the same |
| `Mining.CommitChecks` | src/runtime/node/node.rs:381-391 | a block built on the active ledger at the demanded difficulty can fail neither the difficulty check nor the state-root comparison |
| `Mining.Prepare` | src/main.rs:2875-2907 | under the lock the pool is pruned and the candidate fits the active ledger, or the stated reason for having none holds |
| `Mining.Commit` | src/main.rs:2920-2948 | the block is discarded without any change exactly when the tip moved; otherwise the outcome is the node's verdict on it, a block reported as mined is in the tree unless the ledger called it a repeat, and one that got in is reported as mined |
| `Mining.CommitPrepared` | src/main.rs:2920-2948 | after anything may have happened since, a prepared block is applied exactly when the tip is still the one it was prepared on; then the ledger is the same, its root and difficulty cannot fail, and otherwise nothing changes |
| `Mining.MineOnce` | src/main.rs:2869-2948 | whatever other threads do between prepare and commit, the outcome is fixed by the candidate, the search and the tree the commit meets: discarded if the tip moved, else the verdict on the ledger of the preparation; a block reported as mined is the one found and is in the tree, unless the ledger called it a repeat |
| `Sync.HandleRequest` | src/runtime/network/handler.rs:21-35 | every valid node answers tip and block requests from its active chain |
| `Backfill.ValidLater` | src/runtime/node/node.rs:532-555 | a valid chain stays valid as the clock advances |
| `Backfill.ChainNotDropped` | src/runtime/node/node.rs:340-353 | within the lifetime, height and size limits, deliveries from the peer's chain drop nothing |
| `Backfill.ChainVerdict` | src/runtime/node/node.rs:164-190 | the node reports known chain blocks as repeats, the next one as acceptable, and those above a gap as missing a parent |
| `Backfill.DeliveredConnects` | src/runtime/node/node.rs:355-379 | delivering the first missing block connects it and the waiting blocks up to the next gap, and nothing beyond |
| `Backfill.DeliveredAside` | src/runtime/node/node.rs:222-256 | delivering any other block of the chain leaves the tree alone and at most adds the block to the waiting ones |
| `Backfill.TipMoves` | src/runtime/node/node.rs:188-193 | only blocks of the chain enter the tree, a tip that moves is one of them, and it stays above the given height |
| `Gaps.DownCloses` | src/p2p.rs:266-285 | asking for the parent of every known block shortens every gap by one |
| `Sync.ReportsOnce` | src/runtime/node/node.rs:164-183 | the reported error of a delivery depends on tree and block alone |
| `Sync.FetchBlock` | src/p2p.rs:234-264 | without a block in the answer nothing happens; otherwise one delivery, with the error it reports |
| `Sync.DownloadHeights` | src/p2p.rs:174-177 | for any peer: the heights below the failing one were delivered in order without an error, and the reported height is the first that fails |
| `Sync.RequestMissingParentBlocks` | src/p2p.rs:266-285 | for any peer: the due requests leave the queue and are fetched in order up to the first that fails, which is reported and queued again with a delay |
| `Sync.RoundQueue` | src/p2p.rs:266-285 | afterwards the queue holds requests that were not due, parents of blocks the round brought, and of the due ones at most the one that failed |
| `Sync.PollPeer` | src/p2p.rs:153-180 | for any peer: heights above the local tip, at most 64, then missing parents; the result names the phase, the place and the cause of the first failure |
| `CatchUp.StepSyncs` | src/runtime/node/node.rs:164-183 | one delivered block of an honest chain is one more known block; it is never an error, moves the tree only if it is the first missing one, and its parent is asked for exactly when it starts to wait |
| `CatchUp.HonestFetch` | src/p2p.rs:234-318 | requests to an honest peer never fail and make exactly the requested blocks known |
| `CatchUp.RoundSyncs` | src/p2p.rs:266-285 | one round of requests makes exactly the parents of all known blocks known; with one gap of one block the queue is empty afterwards |
| `CatchUp.PollSyncs` | src/p2p.rs:153-180 | one poll of an honest peer never fails, adds the downloaded heights and then every missing parent, and leaves the tree alone unless the first missing block was among them |
| `CatchUp.PollUntilConnected` | src/p2p.rs:153-180 | for any set of known blocks with gaps of at most n, n polls at non-decreasing clock readings connect all of them and what was downloaded, and empty the pool; left-over requests name connected blocks, and with one gap there are none |
| `CatchUp.SyncStarts` | src/p2p.rs:153-180 | any valid node with an empty pool that shares the chain's first block is ready to catch up if the fork is not too far below its tip, and as many polls as there are blocks from the fork to the tip connect what they download |
| `CatchUp.ChainLeads` | src/runtime/node/node.rs:188-193 | under fork choice by rank, once the connected part of the chain beats the old branch its end is the best tip |
| `CatchUp.PollInStep` | src/p2p.rs:153-180 | a node on the chain moves its tip up by 64 blocks or to the peer's tip with each poll, at any time |
| `CatchUp.CatchUpWith` | src/p2p.rs:153-180 | closing polls and then one poll per 64 blocks make the peer's chain the ledger, with empty pool and queue |
| `Wallet.ResolveWalletNonce` | src/mempool.rs:26-47 | returns the least nonce from the account nonce up that is not pending; a pending one only if all up to the 64-bit ceiling are |
| `Wallet.NonceForPool` | src/mempool.rs:26-47 | when the pending set is a chain the mempool accepts, the wallet picks exactly the nonce the mempool expects next |

## Left out

- `paqus` internals: signatures, digests, Argon2id, the retarget formula, subsidy, checkpoints.
- Several clock readings inside one call: the model reads the clock once per call.
- Failing disk writes.
- Nodes.Node.constructor: does not model nodes started on an empty ledger, because every start of the program begins with genesis; genesis applied through `apply_block` is therefore always refused here.
- Nodes.BuildForkChoice: does not model an empty chain, for the same reason.
- Consistency.FirstComeOnly: does not model nodes without genesis accounts whose ledger is not a replay from empty accounts; for those, Nodes.Node.ValidateBlockStateForKnownParent still states the refusal.
- Mempools.Mempool.constructor: does not model a byte limit equal to the largest machine size, where the saturating counter could not tell full from over-full.
- Mining.SumFees: does not model builds with overflow checks, which stop the process where this sum wraps around.
- Sync.PollPeer: does not model the handshake, and assumes the node is used by nobody else during the poll.
- CatchUp.PollUntilConnected: assumes that the peer's chain stays as it is, and that the pool holds no block of another chain, whose missing parent would end each round; it does not cover branches whose waiting blocks exceed the pool, the height limit or the orphan lifetime, because there the code drops them; where fork choice may move the tip below its present height, the branch must also lie within 512 heights of the fork.
- Restart.InitOrLoad: does not claim that the restarted node has the same tip under an arbitrary fork-choice rule, because ties are then broken by insertion order.
- `save_state_snapshot`, checking a snapshot against a block, `insert_at` without validation, `save_block`, `save_account`, balance views, `mine_block`: only easy members.
- Sockets, message framing, HTTP, RPC, command line, configuration, wallet files, peer lists and statistics.
