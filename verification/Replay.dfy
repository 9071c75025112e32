/** Executing blocks on a ledger, and what it means for a block to be acceptable. */
module Replays {
  import opened Types
  import opened Protocols

  predicate ExtendsChain(p: Protocol, l: Ledger, b: Block)
  {
    && b.height == |l.blocks|
    && (|l.blocks| > 0 ==> b.prev == p.hash(l.blocks[|l.blocks| - 1]))
  }

  /** `Ledger::apply_block`. */
  function Apply(p: Protocol, l: Ledger, b: Block): (r: Result<Ledger, LedgerError>)
  {
    match p.transition(l, b)
    case Err(e) => Err(e)
    case Ok(accounts) =>
      if ExtendsChain(p, l, b) then Ok(Ledger(accounts, l.blocks + [b])) else Err(UnlinkedBlock)
  }

  /** Executes a branch on the genesis accounts; the root itself is only recorded. */
  function Replay(p: Protocol, genesisAccounts: Accounts, br: seq<Block>): (r: Result<Ledger, LedgerError>)
    requires |br| > 0
    ensures r.Ok? ==> r.value.blocks == br
  {
    if |br| == 1 then Ok(Ledger(genesisAccounts, br))
    else
      match Replay(p, genesisAccounts, br[..|br| - 1])
      case Err(e) => Err(e)
      case Ok(l) =>
        assert br[..|br| - 1] + [br[|br| - 1]] == br;
        Apply(p, l, br[|br| - 1])
  }

  lemma ReplayStep(p: Protocol, genesisAccounts: Accounts, br: seq<Block>, b: Block)
    requires |br| > 0
    ensures Replay(p, genesisAccounts, br + [b]) ==
            match Replay(p, genesisAccounts, br) { case Err(e) => Err(e) case Ok(l) => Apply(p, l, b) }
  {
    assert (br + [b])[..|br|] == br;
  }

  /** A branch that can be executed is a linked chain: above its root every block has the height of its
      place and names the block below as its parent. */
  lemma {:induction false} ReplayLinks(p: Protocol, genesisAccounts: Accounts, br: seq<Block>, i: nat)
    requires 0 < i < |br| && Replay(p, genesisAccounts, br).Ok?
    ensures br[i].height == i && br[i].prev == p.hash(br[i - 1])
  {
    var n := |br| - 1;
    if i < n { ReplayLinks(p, genesisAccounts, br[..n], i); }
  }

  /** The first failing block decides the outcome of a replay. */
  lemma {:induction false} ReplayFails(p: Protocol, genesisAccounts: Accounts, br: seq<Block>, n: nat)
    requires 0 < n <= |br| && Replay(p, genesisAccounts, br[..n]).Err?
    ensures Replay(p, genesisAccounts, br) == Replay(p, genesisAccounts, br[..n])
  {
    if n < |br| {
      assert br[..|br| - 1][..n] == br[..n];
      ReplayFails(p, genesisAccounts, br[..|br| - 1], n);
    } else {
      assert br[..n] == br;
    }
  }

  /** Difficulty demanded of a block on top of a branch. */
  function BranchDifficulty(p: Protocol, br: seq<Block>): (r: Result<nat, ConsensusError>)
    requires |br| > 0
  {
    var tip := br[|br| - 1];
    if |br| - 1 < p.interval then Ok(p.startDifficulty)
    else p.retarget(tip.difficulty, br[|br| - 1 - p.interval].timestamp, tip.timestamp, p.interval)
  }

  // ----- What a block must meet -----

  /** The block carries the demanded difficulty, passes the next-block check and agrees with the
      checkpoints. Without a starting difficulty none is demanded. */
  ghost predicate HeaderHolds(p: Protocol, br: seq<Block>, b: Block, now: u64)
    requires |br| > 0
  {
    && (p.startDifficulty != 0 ==> BranchDifficulty(p, br) == Ok(b.difficulty))
    && p.checkNext(b, br[|br| - 1], now).None?
    && p.checkpoint(b.height, p.hash(b))
  }

  /** The block can be executed on `l` and carries the state root that this gives, which above
      genesis is not zero. */
  ghost predicate StateHolds(p: Protocol, l: Ledger, b: Block)
  {
    && Apply(p, l, b).Ok?
    && p.stateRootAfter(l, b) == Ok(b.stateRoot)
    && (b.height > 0 ==> b.stateRoot != ZERO_HASH)
  }

  /** Everything a block on top of a branch must meet, whatever node looks at it. */
  ghost predicate Passes(p: Protocol, ga: Accounts, br: seq<Block>, b: Block, now: u64)
    requires |br| > 0
  {
    && HeaderHolds(p, br, b, now)
    && Replay(p, ga, br).Ok?
    && StateHolds(p, Replay(p, ga, br).value, b)
  }

  /** Which header check a refusal names: difficulty first, then the next-block check, then the
      checkpoint. `demanded` is the difficulty demanded on top of `parent`. */
  ghost predicate HeaderRefusal(p: Protocol, demanded: Result<nat, ConsensusError>, parent: Block, b: Block, now: u64,
                                r: Option<NodeError>)
  {
    var next := p.checkNext(b, parent, now);
    if p.startDifficulty != 0 && demanded != Ok(b.difficulty) then
      r == Some(ConsensusFailure(if demanded.Err? then demanded.error else UnexpectedDifficulty))
    else if next.Some? then r == Some(ConsensusFailure(next.value))
    else r == if p.checkpoint(b.height, p.hash(b)) then None else Some(CheckpointMismatch)
  }

  /** Which execution check a refusal names: the state root first, then the execution. */
  ghost predicate StateRefusal(p: Protocol, l: Ledger, b: Block, r: Option<NodeError>)
  {
    var root := p.stateRootAfter(l, b);
    && (root.Err? ==> r == Some(LedgerFailure(root.error)))
    && (root.Ok? && (root.value != b.stateRoot || (b.height > 0 && b.stateRoot == ZERO_HASH)) ==>
          r == Some(LedgerFailure(InvalidStateRoot)))
    && (root == Ok(b.stateRoot) && (b.height > 0 ==> b.stateRoot != ZERO_HASH) ==>
          r == if Apply(p, l, b).Ok? then None else Some(LedgerFailure(Apply(p, l, b).error)))
  }

  // ----- The checks, in order -----

  /** Header checks of a block on top of a branch. */
  function HeaderVerdict(p: Protocol, br: seq<Block>, b: Block, now: u64): (r: Option<NodeError>)
    requires |br| > 0
    ensures r.None? <==> HeaderHolds(p, br, b, now)
    ensures r.Some? ==> !r.value.ForkChoiceFailure?
  {
    if p.startDifficulty != 0 && BranchDifficulty(p, br).Err? then Some(ConsensusFailure(BranchDifficulty(p, br).error))
    else if p.startDifficulty != 0 && b.difficulty != BranchDifficulty(p, br).value then
      Some(ConsensusFailure(UnexpectedDifficulty))
    else
      match p.checkNext(b, br[|br| - 1], now)
      case Some(e) => Some(ConsensusFailure(e))
      case None => if p.checkpoint(b.height, p.hash(b)) then None else Some(CheckpointMismatch)
  }

  function RootVerdict(p: Protocol, l: Ledger, b: Block): (r: Option<LedgerError>)
  {
    match p.stateRootAfter(l, b)
    case Err(e) => Some(e)
    case Ok(root) =>
      if b.stateRoot != root then Some(InvalidStateRoot)
      else if b.height != 0 && b.stateRoot == ZERO_HASH then Some(InvalidStateRoot)
      else None
  }

  /** Execution checks of a block on a ledger. */
  function StateVerdict(p: Protocol, l: Ledger, b: Block): (r: Option<NodeError>)
    ensures r.None? <==> StateHolds(p, l, b)
    ensures r.Some? ==> r.value.LedgerFailure?
  {
    match RootVerdict(p, l, b)
    case Some(e) => Some(LedgerFailure(e))
    case None =>
      match Apply(p, l, b)
      case Err(e) => Some(LedgerFailure(e))
      case Ok(_) => None
  }

  /** All checks of a block on top of a branch, independent of any node's state. */
  function BranchVerdict(p: Protocol, genesisAccounts: Accounts, br: seq<Block>, b: Block,
                         now: u64): (r: Option<NodeError>)
    requires |br| > 0
    ensures r.None? <==> Passes(p, genesisAccounts, br, b, now)
    ensures r.Some? ==> !r.value.ForkChoiceFailure?
  {
    match HeaderVerdict(p, br, b, now)
    case Some(e) => Some(e)
    case None =>
      match Replay(p, genesisAccounts, br)
      case Err(e) => Some(LedgerFailure(e))
      case Ok(l) => StateVerdict(p, l, b)
  }
}
