/** Concrete databases on a chain of one or two blocks, for the conditions under which
    following the chain goes wrong. */
module Witnesses {
  import opened Common
  import opened PoolDiffs
  import opened StakeNodes
  import opened StakeDB
  import opened ChainMonitors
  import opened Ancestry
  import opened Notifiers

  const GENESIS := Block(Hash(1), ZERO_HASH, 0, [])
  const FIRST := Block(Hash(2), Hash(1), 1, [])
  const SIDE := Block(Hash(3), Hash(1), 1, [Hash(100)])
  const SECOND := Block(Hash(4), Hash(2), 2, [])

  /** Tickets mature after one block, and none ever wins or expires. */
  function SmallRules(accepts: (Node, Block, seq<Hash>) -> bool): Rules {
    Rules(GENESIS, 1, (n: Node) => [], (n: Node) => [], accepts)
  }

  function NoTickets(): (Node, Block, seq<Hash>) -> bool {
    (n: Node, b: Block, m: seq<Hash>) => m == []
  }

  function Always(answer: bool): (Node, Block, seq<Hash>) -> bool {
    (n: Node, b: Block, m: seq<Hash>) => answer
  }

  /** The RPC with both blocks of the chain, and one with the side chain only. */
  function ChainRpc(): Rpc {
    Rpc((h: Hash) => if h == GENESIS.hash then Some(GENESIS) else if h == FIRST.hash then Some(FIRST) else None,
        (i: int) => if i == 0 then Some(GENESIS.hash) else if i == 1 then Some(FIRST.hash) else None,
        (t: Hash) => Some(0))
  }

  function SideRpc(): Rpc {
    Rpc((h: Hash) => if h == GENESIS.hash then Some(GENESIS) else if h == SIDE.hash then Some(SIDE) else None,
        (i: int) => if i == 0 then Some(GENESIS.hash) else if i == 1 then Some(SIDE.hash) else None,
        (t: Hash) => Some(0))
  }

  /** The database after the first block. */
  const AT_FIRST := Db([Link(FIRST, [])], map[], map[], [PoolDiff([], [])])

  lemma AtFirstSettled(accepts: (Node, Block, seq<Hash>) -> bool, value: Hash -> Option<int>)
    requires accepts([], FIRST, [])
    ensures Settled(SmallRules(accepts), value, AT_FIRST)
  {
    var rules := SmallRules(accepts);
    var node := AT_FIRST.node;
    assert node[..0] == [] && node[..1] == node;
    assert DiffAt(rules, node, 0) == PoolDiff([], []);
    assert DiffsOf(rules, node) == AT_FIRST.diffs;
    assert LiveTickets(rules, node) == {} by {
      assert PoolAt(DiffsOf(rules, node), 0) == {};
    }
    assert GroundedAt(rules, node, 1);
  }

  lemma NoTicketsSound()
    ensures LotterySound(SmallRules(NoTickets()))
  {
  }

  /** The node has dropped the old tip when the reorganisation is served: the switch fails
      without a tip, and the handler crashes. */
  lemma UnknownTipCrashesHandler()
    ensures
      var rules, rpc := SmallRules(NoTickets()), SideRpc();
      var reorg := Reorg(GENESIS.hash, [SIDE.hash], SIDE.hash, 1, [FIRST.hash], FIRST.hash, 1);
      && Settled(rules, rpc.value, AT_FIRST) && LotterySound(rules)
      && RealReorg(rules, AT_FIRST, reorg, [SIDE], rpc)
      && MustAbort(rules, AT_FIRST.node, reorg, rpc)
      && Switch(rules, AT_FIRST, reorg, rpc) == (Aborted, AT_FIRST)
  {
    var rules, rpc := SmallRules(NoTickets()), SideRpc();
    AtFirstSettled(NoTickets(), rpc.value);
    NoTicketsSound();
    var reorg := Reorg(GENESIS.hash, [SIDE.hash], SIDE.hash, 1, [FIRST.hash], FIRST.hash, 1);
    assert !Knows(rules, AT_FIRST.node, 1, rpc);
    assert Continues(GENESIS, [SIDE], reorg.newChain) by {
      assert ContinuesAt(GENESIS, [SIDE], reorg.newChain, 0);
    }
  }

  /** A side chain block that was refused hands its ticket to the next block of the chain:
      the database that follows is not one that any rebuild gives. */
  lemma RefusedBlockSpoilsNextOne()
    ensures
      var rules, rpc := SmallRules(Always(true)), ChainRpc();
      var (refused, poisoned) := Connect(rules, AT_FIRST, SIDE, rpc);
      var (r, next) := Connect(rules, poisoned, SECOND, rpc);
      && Settled(rules, rpc.value, AT_FIRST)
      && refused == Failed && r == Done
      && next.diffs[1].incoming == [Hash(100)]
      && !Grounded(rules, next.node) && !Settled(rules, rpc.value, next)
  {
    var rules, rpc := SmallRules(Always(true)), ChainRpc();
    AtFirstSettled(Always(true), rpc.value);
    assert rpc.BlockAtHeight(0) == Some(GENESIS);
    RefusedBlockMatures(rules, AT_FIRST, SIDE, SECOND, rpc, rpc);
  }

  /** A block two above the tip connects, when the stake node does not refuse it, to a
      database that is then not settled. */
  lemma SkippingBlockConnects()
    ensures
      var rules, rpc := SmallRules(Always(true)), ChainRpc();
      var (r, next) := Connect(rules, GenesisDb(), SECOND, rpc);
      && Settled(rules, rpc.value, GenesisDb()) && !Extends(rules, [], SECOND)
      && !Fits(rules, GenesisDb(), SECOND, rpc)
      && r == Done && next.node == [Link(SECOND, [])] && !Settled(rules, rpc.value, next)
  {
    var rules, rpc := SmallRules(Always(true)), ChainRpc();
    GenesisSettled(rules, rpc.value);
    assert rpc.BlockAtHeight(1) == Some(FIRST);
    ConnectSettlesExactly(rules, GenesisDb(), SECOND, rpc);
  }

  /** A stake node that refuses the block leaves the database behind the notifier, which
      takes the block for the previous one. */
  lemma RefusedBlockFallsOutOfStep()
    ensures
      var rules, rpc := SmallRules(Always(false)), ChainRpc();
      var (r, next) := Connect(rules, GenesisDb(), FIRST, rpc);
      && InStep(rules, GenesisDb(), GENESIS.hash, rpc) && Genuine(1, BlockMsg(FIRST), rpc)
      && r == Failed && Settled(rules, rpc.value, next)
      && !InStep(rules, next, FIRST.hash, rpc)
  {
    var rules, rpc := SmallRules(Always(false)), ChainRpc();
    GenesisSettled(rules, rpc.value);
    assert KnowsAll(rules, [], rpc);
    SmallTree();
    BlockKeepsStep(rules, GenesisDb(), FIRST, rpc);
  }

  lemma SmallTree()
    ensures Tree(ChainRpc().block) && Genuine(1, BlockMsg(FIRST), ChainRpc())
  {
    var rpc := ChainRpc();
    var fetch := rpc.block;
    forall h | fetch(h).Some?
      ensures TreeAt(fetch, h)
    {
    }
    assert Tree(fetch);
    assert AncestorAt(fetch, FIRST.hash, 1) == FIRST.hash;
    assert AncestorAt(fetch, GENESIS.hash, 0) == GENESIS.hash;
    assert AncestorAt(fetch, FIRST.hash, 0) == GENESIS.hash;
  }
}
