/** The stake database (stakedb/stakedb.go): the best stake node, the live ticket
    cache with its running total, the cache of recent blocks, and the ticket pool
    diffs, all of which must follow the chain through connects and disconnects. */
module StakeDB {
  import opened Common
  import opened DiffStore
  import opened PoolDiffs
  import opened StakeNodes
  import opened TicketPools

  datatype Outcome = Done | Failed | Panicked

  /** What the database holds, as a value. */
  datatype Db = Db(node: Node, blocks: map<int, Block>, live: map<Hash, int>, diffs: seq<PoolDiff>)

  // ------------------------------------------------------------------------
  // Connecting and disconnecting, on values
  // ------------------------------------------------------------------------

  /** The tickets that ConnectBlock takes to be maturing: none below the maturity
      height, else those of the cached block or of the RPC's main chain block. */
  function MaturingFor(rules: Rules, cache: map<int, Block>, block: Block, rpc: Rpc): Option<seq<Hash>> {
    var m := block.height - rules.maturity;
    if m < 0 then Some([])
    else if m in cache then Some(cache[m].tickets)
    else
      match rpc.BlockAtHeight(m)
      case None => None
      case Some(b) => Some(b.tickets)
  }

  /** The block cache after a connect, even one that is then refused: the maturing
      block is forgotten and the new block remembered. */
  function CacheAfterConnect(rules: Rules, cache: map<int, Block>, block: Block): map<int, Block> {
    var m := block.height - rules.maturity;
    (if m >= 0 then cache - {m} else cache)[block.height := block]
  }

  /** ConnectBlock asks neither for the block's parent nor for the very next height.
      The diff goes to the ticket pool under the node's own next height, which the
      pool refuses when it is not level with the node. */
  function Connect(rules: Rules, db: Db, block: Block, rpc: Rpc): (Outcome, Db) {
    match MaturingFor(rules, db.blocks, block, rpc)
    case None => (Panicked, db)
    case Some(maturing) =>
      var cached := db.(blocks := CacheAfterConnect(rules, db.blocks, block));
      if block.height <= |db.node| || !rules.accepts(db.node, block, maturing) then
        (Failed, cached)
      else
        var next := db.node + [Link(block, maturing)];
        var d := DiffAt(rules, next, |db.node|);
        var moved := cached.(node := next, live := CacheApply(db.live, d, rpc.value));
        if |db.diffs| == |db.node| then (Done, moved.(diffs := db.diffs + [d])) else (Failed, moved)
  }

  /** disconnectBlock: the ticket pool is trimmed to the parent's height, however far
      that is, and each trimmed diff is undone from the live cache unless the cache
      is neglected. */
  function Disconnect(rules: Rules, db: Db, neglectCache: bool, rpc: Rpc): (Outcome, Db) {
    match rpc.block(TipHash(rules, db.node))
    case None => (Failed, db)
    case Some(tip) =>
      match rpc.block(tip.prev)
      case None => (Failed, db)
      case Some(parent) =>
        if parent.height as int != |db.node| - 1 then (Panicked, db)
        else
          var keep := if |db.diffs| <= parent.height then |db.diffs| else parent.height;
          (Done, Db(db.node[..|db.node| - 1],
                    db.blocks,
                    if neglectCache then db.live
                    else CacheBackward(db.live, db.diffs, |db.diffs|, keep, rpc.value),
                    db.diffs[..keep]))
  }

  /** What a connect that succeeds leaves, said of every field. The block is the next one
      of the node, with the tickets of the block at its maturity depth, if that is not
      below genesis; these come in, and those that the old node had winning and those that
      the new node has expired go out. */
  lemma ConnectMeans(rules: Rules, db: Db, block: Block, rpc: Rpc)
    requires Connect(rules, db, block, rpc).0 == Done
    ensures
      var next := Connect(rules, db, block, rpc).1;
      var m := block.height - rules.maturity;
      && block.height > |db.node|
      && (m >= 0 && m !in db.blocks ==> rpc.main(m).Some? && rpc.block(rpc.main(m).value).Some?)
      && var maturing :=
           if m < 0 then [] else if m in db.blocks then db.blocks[m].tickets
           else rpc.block(rpc.main(m).value).value.tickets;
         var out := rules.winners(db.node) + rules.expired(next.node);
         && rules.accepts(db.node, block, maturing)
         && next.node == db.node + [Link(block, maturing)]
         && next.diffs == db.diffs + [PoolDiff(maturing, out)]
         && next.blocks == (if m >= 0 then db.blocks - {m} else db.blocks)[block.height := block]
         && forall t ::
              && (t in next.live <==> t !in out && (t in db.live || (t in maturing && rpc.value(t).Some?)))
              && (t in next.live ==> Some(next.live[t]) == if t in db.live then Some(db.live[t]) else rpc.value(t))
  {
    var next := Connect(rules, db, block, rpc).1;
    assert next.node[..|db.node|] == db.node && next.node[..|db.node| + 1] == next.node;
  }

  /** When a connect succeeds, fails and panics, and what it leaves when it fails. */
  lemma ConnectEnds(rules: Rules, db: Db, block: Block, rpc: Rpc)
    ensures
      var (r, next) := Connect(rules, db, block, rpc);
      var m := block.height - rules.maturity;
      var known := m < 0 || m in db.blocks || (rpc.main(m).Some? && rpc.block(rpc.main(m).value).Some?);
      && (r == Panicked <==> !known)
      && (r == Panicked ==> next == db)
      && (known ==>
            var maturing :=
              if m < 0 then [] else if m in db.blocks then db.blocks[m].tickets
              else rpc.block(rpc.main(m).value).value.tickets;
            var fits := block.height > |db.node| && rules.accepts(db.node, block, maturing);
            && (r == Done <==> fits && |db.diffs| == |db.node|)
            && next.blocks == (if m >= 0 then db.blocks - {m} else db.blocks)[block.height := block]
            && (!fits ==> next.node == db.node && next.diffs == db.diffs && next.live == db.live))
  {
  }

  /** When a disconnect succeeds, fails and panics; only then does anything change. */
  lemma DisconnectEnds(rules: Rules, db: Db, neglectCache: bool, rpc: Rpc)
    ensures
      var (r, next) := Disconnect(rules, db, neglectCache, rpc);
      var tip := rpc.block(if db.node == [] then rules.genesis.hash else db.node[|db.node| - 1].block.hash);
      var known := tip.Some? && rpc.block(tip.value.prev).Some?;
      && (r == Failed <==> !known)
      && (known ==> (r == Done <==> rpc.block(tip.value.prev).value.height as int == |db.node| - 1))
      && (r != Done ==> next == db)
  {
  }

  /** What a disconnect that succeeds leaves, for a database with a diff for each block. */
  lemma DisconnectMeans(rules: Rules, db: Db, rpc: Rpc)
    requires Disconnect(rules, db, false, rpc).0 == Done && |db.diffs| == |db.node|
    ensures
      var next := Disconnect(rules, db, false, rpc).1;
      var n := |db.node|;
      && n > 0
      && next.node == db.node[..n - 1] && next.diffs == db.diffs[..n - 1] && next.blocks == db.blocks
      && forall t ::
           && (t in next.live <==>
               t !in db.diffs[n - 1].incoming
               && (t in db.live || (t in db.diffs[n - 1].outgoing && rpc.value(t).Some?)))
           && (t in next.live ==> Some(next.live[t]) == if t in db.live then Some(db.live[t]) else rpc.value(t))
  {
    var n := |db.node|;
    assert CacheBackward(db.live, db.diffs, n, n, rpc.value) == db.live;
  }

  function DisconnectMany(rules: Rules, db: Db, count: int, rpc: Rpc): (Outcome, Db)
    decreases count
  {
    if count <= 0 then (Done, db)
    else
      var (r, next) := Disconnect(rules, db, false, rpc);
      if r != Done then (r, next) else DisconnectMany(rules, next, count - 1, rpc)
  }

  /** Blocks fetched by hash and connected in order, up to the first that fails. */
  function ConnectMany(rules: Rules, db: Db, hashes: seq<Hash>, rpc: Rpc): (Outcome, Db)
    decreases |hashes|
  {
    if hashes == [] then (Done, db)
    else
      match rpc.block(hashes[0])
      case None => (Failed, db)
      case Some(block) =>
        var (r, next) := Connect(rules, db, block, rpc);
        if r != Done then (r, next) else ConnectMany(rules, next, hashes[1..], rpc)
  }

  // ------------------------------------------------------------------------
  // Settled databases
  // ------------------------------------------------------------------------

  /** No block cached at a height of the chain is another chain's block. */
  ghost predicate CacheAgrees(rules: Rules, node: Node, cache: map<int, Block>) {
    forall h :: h in cache && 0 <= h <= |node| ==> cache[h] == BlockAt(rules, node, h)
  }

  /** Everything in the database is a function of its chain. */
  ghost predicate Settled(rules: Rules, value: Hash -> Option<int>, db: Db) {
    && Accepted(rules, db.node)
    && Grounded(rules, db.node)
    && CacheAgrees(rules, db.node, db.blocks)
    && db.diffs == DiffsOf(rules, db.node)
    && db.live == CacheOf(value, LiveTickets(rules, db.node))
  }

  /** Each block whose tickets mature with one of the next so many blocks is cached, or
      the RPC's main chain has that very block at its height. */
  ghost predicate Served(rules: Rules, node: Node, cache: map<int, Block>, count: nat, rpc: Rpc) {
    forall m: nat :: m <= |node| < m + rules.maturity <= |node| + count ==> ServedAt(rules, node, cache, rpc, m)
  }

  predicate ServedAt(rules: Rules, node: Node, cache: map<int, Block>, rpc: Rpc, m: nat)
    requires m <= |node|
  {
    m in cache || rpc.BlockAtHeight(m) == Some(BlockAt(rules, node, m))
  }

  /** The RPC knows the block at a height of the chain. */
  predicate Knows(rules: Rules, node: Node, h: nat, rpc: Rpc)
    requires h <= |node|
  {
    rpc.block(BlockAt(rules, node, h).hash) == Some(BlockAt(rules, node, h))
  }

  predicate Extends(rules: Rules, node: Node, block: Block) {
    block.height == |node| + 1 && block.prev == TipHash(rules, node)
  }

  /** The link that connecting a block to a grounded node adds. */
  function LinkFor(rules: Rules, node: Node, block: Block): Link {
    Link(block, MaturingOf(rules, Blocks(node) + [block], |node| + 1))
  }

  lemma LinkForBlock(rules: Rules, node: Node, block: Block)
    ensures LinkFor(rules, node, block).block == block
    ensures TipHash(rules, node + [LinkFor(rules, node, block)]) == block.hash
  {
  }

  lemma MaturingIsOurs(rules: Rules, node: Node, cache: map<int, Block>, block: Block, rpc: Rpc)
    requires Grounded(rules, node) && CacheAgrees(rules, node, cache)
    requires Extends(rules, node, block) && Served(rules, node, cache, 1, rpc)
    ensures MaturingFor(rules, cache, block, rpc) == Some(LinkFor(rules, node, block).maturing)
  {
    var m := |node| + 1 - rules.maturity;
    if m >= 0 {
      assert ServedAt(rules, node, cache, rpc, m);
    }
  }

  /** A link on a grounded node is one that a rebuild gives exactly if its block extends
      the chain and its tickets are those of the chain's own block. */
  lemma GroundedExactly(rules: Rules, node: Node, link: Link)
    requires Grounded(rules, node)
    ensures Grounded(rules, node + [link])
       <==> Extends(rules, node, link.block) && link == LinkFor(rules, node, link.block)
  {
    var next := node + [link];
    var m := |node| + 1 - rules.maturity;
    assert m >= 0 ==> BlockAt(rules, next, m) == BlockAt(rules, node, m);
    assert TipHash(rules, node) == BlockAt(rules, next, |node|).hash;
    if Extends(rules, node, link.block) && link == LinkFor(rules, node, link.block) {
      GroundedExtended(rules, node, link);
    } else {
      assert !GroundedAt(rules, next, |node| + 1);
    }
  }

  lemma CacheAgreesExtended(rules: Rules, node: Node, cache: map<int, Block>, link: Link)
    requires CacheAgrees(rules, node, cache) && link.block.height == |node| + 1 && rules.maturity >= 1
    ensures CacheAgrees(rules, node + [link], CacheAfterConnect(rules, cache, link.block))
  {
  }

  lemma ServedAfterExtending(rules: Rules, node: Node, cache: map<int, Block>, link: Link, count: nat, rpc: Rpc)
    requires Served(rules, node, cache, count, rpc) && count > 0
    requires link.block.height == |node| + 1 && rules.maturity >= 1
    ensures Served(rules, node + [link], CacheAfterConnect(rules, cache, link.block), count - 1, rpc)
  {
    var next, after := node + [link], CacheAfterConnect(rules, cache, link.block);
    forall m: nat | m <= |next| < m + rules.maturity <= |next| + count - 1
      ensures ServedAt(rules, next, after, rpc, m)
    {
      if m <= |node| {
        assert ServedAt(rules, node, cache, rpc, m);
        assert BlockAt(rules, next, m) == BlockAt(rules, node, m);
      }
    }
  }

  /** Connecting a block that extends the tip of a settled database, with the tickets
      maturing on its chain, succeeds exactly when the stake node accepts it, and the
      longer chain is settled again. */
  lemma RightTicketsSettle(rules: Rules, db: Db, block: Block, rpc: Rpc)
    requires Settled(rules, rpc.value, db) && Extends(rules, db.node, block)
    requires MaturingFor(rules, db.blocks, block, rpc) == Some(LinkFor(rules, db.node, block).maturing)
    ensures
      var link := LinkFor(rules, db.node, block);
      var (r, next) := Connect(rules, db, block, rpc);
      && r == (if rules.accepts(db.node, block, link.maturing) then Done else Failed)
      && next.node == (if r == Done then db.node + [link] else db.node)
      && next.blocks == CacheAfterConnect(rules, db.blocks, block)
      && Settled(rules, rpc.value, next)
  {
    hide Apply, CacheApply, CacheOf, PoolAt, Accepted, Served, DiffsOf, DiffAt;
    var link := LinkFor(rules, db.node, block);
    if rules.accepts(db.node, block, link.maturing) {
      var node := db.node + [link];
      GroundedExactly(rules, db.node, link);
      AcceptedExtended(rules, db.node, link);
      CacheAgreesExtended(rules, db.node, db.blocks, link);
      DiffsOfExtended(rules, db.node, link);
      LiveExtended(rules, db.node, link);
      CacheFollowsPool(rpc.value, LiveTickets(rules, db.node), DiffAt(rules, node, |db.node|));
    }
  }

  /** The same for a block whose maturing tickets are served; those of the blocks to come
      then still are. */
  lemma ConnectSettles(rules: Rules, db: Db, block: Block, count: nat, rpc: Rpc)
    requires Settled(rules, rpc.value, db) && count > 0
    requires Extends(rules, db.node, block) && Served(rules, db.node, db.blocks, count, rpc)
    ensures
      var link := LinkFor(rules, db.node, block);
      var (r, next) := Connect(rules, db, block, rpc);
      && r == (if rules.accepts(db.node, block, link.maturing) then Done else Failed)
      && next.node == (if r == Done then db.node + [link] else db.node)
      && Settled(rules, rpc.value, next)
      && (r == Done ==> Served(rules, next.node, next.blocks, count - 1, rpc))
  {
    hide Settled, Connect, LinkFor, CacheAfterConnect;
    SettledMeans(rules, rpc.value, db);
    MaturingIsOurs(rules, db.node, db.blocks, block, rpc);
    RightTicketsSettle(rules, db, block, rpc);
    LinkForBlock(rules, db.node, block);
    ServedAfterExtending(rules, db.node, db.blocks, LinkFor(rules, db.node, block), count, rpc);
  }

  /** What a connect asks of a block for the database to stay settled. At or below the
      tip it must be the chain's own block; above the tip, unless it is refused, it must
      extend the tip and be given the tickets that mature on the chain. */
  ghost predicate Fits(rules: Rules, db: Db, block: Block, rpc: Rpc) {
    match MaturingFor(rules, db.blocks, block, rpc)
    case None => true
    case Some(maturing) =>
      if block.height <= |db.node| then block == BlockAt(rules, db.node, block.height)
      else
        rules.accepts(db.node, block, maturing) ==>
          Extends(rules, db.node, block) && Link(block, maturing) == LinkFor(rules, db.node, block)
  }

  /** Connecting any block whatsoever leaves a settled database settled exactly if it
      fits. ConnectBlock itself does not ask for that when the block is above the tip. */
  lemma ConnectSettlesExactly(rules: Rules, db: Db, block: Block, rpc: Rpc)
    requires Settled(rules, rpc.value, db)
    ensures
      var (r, next) := Connect(rules, db, block, rpc);
      && (Settled(rules, rpc.value, next) <==> Fits(rules, db, block, rpc))
      && (r == Done ==>
            (Settled(rules, rpc.value, next) <==>
             Extends(rules, db.node, block)
             && MaturingFor(rules, db.blocks, block, rpc) == Some(LinkFor(rules, db.node, block).maturing)))
  {
    hide Accepted, DiffsOf, CacheOf, LiveTickets, CacheApply, DiffAt, LinkFor, CacheAfterConnect, CacheAgrees, Grounded;
    var (r, next) := Connect(rules, db, block, rpc);
    SettledMeans(rules, rpc.value, db);
    LinkForBlock(rules, db.node, block);
    if r == Failed {
      RefusedConnectPoisonsCacheExactly(rules, db, block, rpc);
    } else if r == Done {
      var link := Link(block, MaturingFor(rules, db.blocks, block, rpc).value);
      GroundedExactly(rules, db.node, link);
      if link == LinkFor(rules, db.node, block) && Extends(rules, db.node, block) {
        RightTicketsSettle(rules, db, block, rpc);
      }
    }
  }

  lemma SettledMeans(rules: Rules, value: Hash -> Option<int>, db: Db)
    requires Settled(rules, value, db)
    ensures Accepted(rules, db.node) && Grounded(rules, db.node) && CacheAgrees(rules, db.node, db.blocks)
    ensures rules.genesis.height == 0 && rules.maturity >= 1
  {
  }

  /** A refused connect leaves the block cache in agreement with the chain exactly
      when the refused block is above the tip or is the chain's own block: a side
      chain block at or below the tip stays behind in the cache, to be taken for
      the maturing block later. */
  lemma RefusedConnectPoisonsCacheExactly(rules: Rules, db: Db, block: Block, rpc: Rpc)
    requires CacheAgrees(rules, db.node, db.blocks)
    requires Connect(rules, db, block, rpc).0 == Failed && |db.diffs| == |db.node|
    ensures CacheAgrees(rules, db.node, Connect(rules, db, block, rpc).1.blocks)
       <==> block.height > |db.node| || block == BlockAt(rules, db.node, block.height)
  {
    var after := CacheAfterConnect(rules, db.blocks, block);
    assert after[block.height] == block;
  }

  /** What a refused side chain block at the maturity depth does later: the next connect
      takes its tickets to be maturing, and the longer chain is still one that a rebuild
      gives exactly if those are the tickets of the chain's own block. */
  lemma RefusedBlockMatures(rules: Rules, db: Db, side: Block, block: Block, rpc: Rpc, later: Rpc)
    requires Settled(rules, rpc.value, db) && later.value == rpc.value
    requires Connect(rules, db, side, rpc).0 == Failed
    requires side.height == |db.node| + 1 - rules.maturity && Extends(rules, db.node, block)
    ensures
      var poisoned := Connect(rules, db, side, rpc).1;
      var (r, next) := Connect(rules, poisoned, block, later);
      var node := db.node + [Link(block, side.tickets)];
      && MaturingFor(rules, poisoned.blocks, block, later) == Some(side.tickets)
      && r == (if rules.accepts(db.node, block, side.tickets) then Done else Failed)
      && (r == Done ==> next.node == node && next.diffs[|db.node|].incoming == side.tickets)
      && (Grounded(rules, node) <==> side.tickets == BlockAt(rules, db.node, side.height).tickets)
  {
    hide CacheApply, CacheOf, PoolAt, Accepted, LiveTickets, LinkFor;
    var n := |db.node|;
    var node := db.node + [Link(block, side.tickets)];
    assert BlockAt(rules, node, side.height) == BlockAt(rules, db.node, side.height);
    if side.tickets == BlockAt(rules, db.node, side.height).tickets {
      GroundedExtended(rules, db.node, Link(block, side.tickets));
    } else {
      assert !GroundedAt(rules, node, n + 1);
    }
  }

  /** Disconnecting a block of a settled database settles it on the shorter chain,
      whatever the RPC answers: it is the stake node that names the parent. It
      succeeds when the RPC knows the tip and its parent. */
  lemma DisconnectSettles(rules: Rules, value: Hash -> Option<int>, db: Db, rpc: Rpc)
    requires Settled(rules, value, db) && LotterySound(rules) && rpc.value == value
    ensures
      var (r, next) := Disconnect(rules, db, false, rpc);
      && Settled(rules, value, next)
      && (r == Done ==> |db.node| > 0)
      && next.node == (if r == Done then db.node[..|db.node| - 1] else db.node)
      && next.blocks == db.blocks
      && (|db.node| > 0 && Knows(rules, db.node, |db.node|, rpc) && Knows(rules, db.node, |db.node| - 1, rpc)
          ==> r == Done)
  {
    hide Apply, CacheApply, CacheOf, PoolAt, Accepted, DiffAt, WellFormed, LotterySound;
    var n := |db.node|;
    if n > 0 {
      assert GroundedAt(rules, db.node, n);
      assert n > 1 ==> GroundedAt(rules, db.node, n - 1);
    }
    var (r, next) := Disconnect(rules, db, false, rpc);
    if r == Done {
      var shorter := db.node[..n - 1];
      AcceptedPrefix(rules, db.node, n - 1);
      GroundedPrefix(rules, db.node, n - 1);
      DiffsOfPrefix(rules, db.node, n - 1);
      LiveShrunk(rules, db.node);
      CacheFollowsPool(value, LiveTickets(rules, db.node), db.diffs[n - 1].Swap());
      assert next.diffs == DiffsOf(rules, shorter);
      assert CacheBackward(db.live, db.diffs, n, n, value) == db.live;
      assert next.live == CacheBackward(db.live, db.diffs, n, n - 1, value);
      assert next.live == CacheApply(db.live, db.diffs[n - 1].Swap(), value);
    }
  }

  /** Undoing the last diff of a node gives the tickets live at its parent. */
  lemma LiveShrunk(rules: Rules, node: Node)
    requires node != [] && Accepted(rules, node) && LotterySound(rules)
    ensures Undo(LiveTickets(rules, node), DiffsOf(rules, node)[|node| - 1])
         == LiveTickets(rules, node[..|node| - 1])
  {
    hide Apply, Undo, Accepted, WellFormed, LotterySound, PoolAt;
    AcceptedIsSound(rules, node);
    UndoStep(DiffsOf(rules, node), |node| - 1);
    PrefixDiff(rules, node, |node| - 1);
    assert node[..|node|] == node;
  }

  /** A disconnect takes one block off the node and trims the diffs to its height,
      or changes nothing. */
  lemma DisconnectTrims(rules: Rules, db: Db, neglectCache: bool, rpc: Rpc)
    ensures
      var (r, next) := Disconnect(rules, db, neglectCache, rpc);
      && next.blocks == db.blocks
      && (r != Done ==> next == db)
      && (r == Done ==>
            && |db.node| > 0 && next.node == db.node[..|db.node| - 1]
            && |next.diffs| == (if |db.diffs| < |db.node| then |db.diffs| else |db.node| - 1)
            && next.diffs == db.diffs[..|next.diffs|])
      && (neglectCache ==> next.live == db.live)
  {
    hide CacheBackward;
  }

  /** The top block of part of a grounded chain can be disconnected when the RPC
      knows it and its parent. */
  lemma KnownCanDisconnect(rules: Rules, chain: Node, n: nat, db: Db, neglectCache: bool, rpc: Rpc)
    requires 0 < n <= |chain| && db.node == chain[..n] && Grounded(rules, chain)
    ensures Knows(rules, chain, n, rpc) && Knows(rules, chain, n - 1, rpc) ==>
      Disconnect(rules, db, neglectCache, rpc).0 == Done
  {
    hide CacheBackward;
    assert GroundedAt(rules, chain, n);
    assert n > 1 ==> GroundedAt(rules, chain, n - 1);
  }

  lemma {:induction false} DisconnectManySettles(rules: Rules, value: Hash -> Option<int>, db: Db, count: int, rpc: Rpc)
    requires Settled(rules, value, db) && LotterySound(rules) && rpc.value == value
    ensures
      var (r, next) := DisconnectMany(rules, db, count, rpc);
      && Settled(rules, value, next)
      && next.blocks == db.blocks
      && |next.node| <= |db.node| && next.node == db.node[..|next.node|]
      && (r == Done ==> |next.node| == if count <= 0 then |db.node| else |db.node| - count)
      && (0 <= count <= |db.node|
          && (forall h :: |db.node| - count <= h <= |db.node| ==> Knows(rules, db.node, h, rpc))
          ==> r == Done)
    decreases count
  {
    hide Settled, LotterySound, Disconnect, Knows;
    if count <= 0 {
      assert db.node == db.node[..|db.node|];
    } else {
      DisconnectSettles(rules, value, db, rpc);
      var (r, next) := Disconnect(rules, db, false, rpc);
      if r == Done {
        DisconnectManySettles(rules, value, next, count - 1, rpc);
        forall h: nat | h <= |next.node|
          ensures Knows(rules, next.node, h, rpc) == Knows(rules, db.node, h, rpc)
        {
          KnowsPrefix(rules, db.node, |next.node|, h, rpc);
        }
      }
    }
  }

  lemma KnowsPrefix(rules: Rules, node: Node, n: nat, h: nat, rpc: Rpc)
    requires h <= n <= |node|
    ensures Knows(rules, node[..n], h, rpc) == Knows(rules, node, h, rpc)
  {
  }

  /** The RPC knows all blocks of the chain. */
  ghost predicate KnowsAll(rules: Rules, node: Node, rpc: Rpc) {
    forall h :: 0 <= h <= |node| ==> Knows(rules, node, h, rpc)
  }

  // ------------------------------------------------------------------------
  // The database object
  // ------------------------------------------------------------------------

  class StakeDatabase {
    const rules: Rules
    const PoolDB: TicketPool
    var bestNode: Node
    var blockCache: map<int, Block>
    var liveTicketCache: map<Hash, int>
    var poolValue: int

    /** In every state the running total is the sum of the live ticket cache. */
    ghost predicate Valid()
      reads this, PoolDB
    {
      PoolDB.Valid() && poolValue == Sum(liveTicketCache)
    }

    function View(): Db
      reads this, PoolDB
    {
      Db(bestNode, blockCache, liveTicketCache, PoolDB.diffs)
    }

    /** Open: a database whose node and ticket pool were read from disk. */
    constructor (rules: Rules, node: Node, pool: TicketPool)
      requires pool.Valid()
      ensures Valid() && View() == Db(node, map[], map[], pool.diffs)
      ensures this.rules == rules && PoolDB == pool
    {
      this.rules, PoolDB, bestNode := rules, pool, node;
      blockCache, liveTicketCache, poolValue := map[], map[], 0;
    }

    /** applyDiff, for any answers of the RPC: tickets already cached, tickets of
        unknown amount and tickets missing from the cache are passed over, and the
        running total moves by exactly what the sum of the cache moves. */
    method ApplyDiff(diff: PoolDiff, rpc: Rpc)
      modifies `liveTicketCache, `poolValue
      ensures liveTicketCache == CacheApply(old(liveTicketCache), diff, rpc.value)
      ensures poolValue - Sum(liveTicketCache) == old(poolValue - Sum(liveTicketCache))
    {
      hide CacheAdd;
      CacheAddNone(liveTicketCache, rpc.value);
      for i := 0 to |diff.incoming|
        invariant liveTicketCache == CacheAdd(old(liveTicketCache), diff.incoming[..i], rpc.value)
        invariant poolValue - Sum(liveTicketCache) == old(poolValue - Sum(liveTicketCache))
      {
        var hash := diff.incoming[i];
        CacheAddSnoc(old(liveTicketCache), diff.incoming[..i], hash, rpc.value);
        assert diff.incoming[..i + 1] == diff.incoming[..i] + [hash];
        if hash !in liveTicketCache {
          match rpc.value(hash)
          case None =>
          case Some(val) =>
            SumWith(liveTicketCache, hash, val);
            liveTicketCache := liveTicketCache[hash := val];
            poolValue := poolValue + val;
        }
      }
      assert diff.incoming[..|diff.incoming|] == diff.incoming;
      ghost var added := liveTicketCache;
      for i := 0 to |diff.outgoing|
        invariant liveTicketCache == added - Elems(diff.outgoing[..i])
        invariant poolValue - Sum(liveTicketCache) == old(poolValue - Sum(liveTicketCache))
      {
        var h := diff.outgoing[i];
        ElemsConcat(diff.outgoing[..i], [h]);
        assert diff.outgoing[..i + 1] == diff.outgoing[..i] + [h];
        if h in liveTicketCache {
          SumWithout(liveTicketCache, h);
          poolValue := poolValue - liveTicketCache[h];
          liveTicketCache := liveTicketCache - {h};
        }
      }
      assert diff.outgoing[..|diff.outgoing|] == diff.outgoing;
    }

    /** undoDiff is applyDiff with the two lists swapped. */
    method UndoDiff(diff: PoolDiff, rpc: Rpc)
      modifies `liveTicketCache, `poolValue
      ensures liveTicketCache == CacheApply(old(liveTicketCache), diff.Swap(), rpc.value)
      ensures poolValue - Sum(liveTicketCache) == old(poolValue - Sum(liveTicketCache))
    {
      ApplyDiff(PoolDiff(diff.outgoing, diff.incoming), rpc);
    }

    /** block: from the cache, else from the node RPC by main chain height. */
    method BlockByHeight(ind: int, rpc: Rpc) returns (block: Option<Block>, wasCached: bool)
      ensures wasCached <==> ind in blockCache
      ensures block == if ind in blockCache then Some(blockCache[ind]) else rpc.BlockAtHeight(ind)
    {
      if ind in blockCache {
        return Some(blockCache[ind]), true;
      }
      return rpc.BlockAtHeight(ind), false;
    }

    method ConnectBlock(block: Block, rpc: Rpc) returns (r: Outcome)
      requires Valid() && PoolDB.tip < MAX_INT64
      modifies `bestNode, `blockCache, `liveTicketCache, `poolValue
      modifies PoolDB`tip, PoolDB`diffs, PoolDB`diffDB, PoolDB`stored
      ensures Valid()
      ensures (r, View()) == Connect(rules, old(View()), block, rpc)
      ensures r == Done ==>
        && |bestNode| == old(|bestNode|) + 1 && bestNode[..old(|bestNode|)] == old(bestNode)
        && bestNode[old(|bestNode|)].block == block
        && PoolDB.diffs == old(PoolDB.diffs)
           + [PoolDiff(bestNode[old(|bestNode|)].maturing, rules.winners(old(bestNode)) + rules.expired(bestNode))]
      ensures PoolDB.tip <= old(PoolDB.tip) + 1
      ensures old(PoolDB.Faithful()) ==> PoolDB.Faithful()
    {
      hide Apply, CacheApply, PoolAt, SoundTo, Contiguous, Holds, Sum;
      var height := block.height;
      var maturingHeight := height - rules.maturity;
      var maturingTickets: seq<Hash> := [];
      if maturingHeight >= 0 {
        var maturingBlock, wasCached := BlockByHeight(maturingHeight, rpc);
        if maturingBlock.None? {
          return Panicked;
        }
        if wasCached {
          blockCache := blockCache - {maturingHeight};
        }
        maturingTickets := maturingBlock.value.tickets;
      }
      assert MaturingFor(rules, old(blockCache), block, rpc) == Some(maturingTickets);
      blockCache := blockCache[height := block];
      assert blockCache == CacheAfterConnect(rules, old(blockCache), block);
      var bestNodeHeight := |bestNode|;
      if height <= bestNodeHeight {
        return Failed;
      }
      var winners := rules.winners(bestNode);
      if !rules.accepts(bestNode, block, maturingTickets) {
        return Failed;
      }
      bestNode := bestNode + [Link(block, maturingTickets)];
      var expiring := rules.expired(bestNode);
      var poolDiff := PoolDiff(maturingTickets, winners + expiring);
      assert bestNode[..bestNodeHeight] == old(bestNode) && bestNode[..bestNodeHeight + 1] == bestNode;
      assert poolDiff == DiffAt(rules, bestNode, bestNodeHeight);
      ApplyDiff(poolDiff, rpc);
      var ok := PoolDB.Append(poolDiff, bestNodeHeight + 1);
      r := if ok then Done else Failed;
    }

    method ConnectBlockHash(hash: Hash, rpc: Rpc) returns (r: Outcome, block: Option<Block>)
      requires Valid() && PoolDB.tip < MAX_INT64
      modifies `bestNode, `blockCache, `liveTicketCache, `poolValue
      modifies PoolDB`tip, PoolDB`diffs, PoolDB`diffDB, PoolDB`stored
      ensures Valid() && block == rpc.block(hash)
      ensures (r, View()) == if block.None? then (Failed, old(View()))
                             else Connect(rules, old(View()), block.value, rpc)
      ensures PoolDB.tip <= old(PoolDB.tip) + 1
      ensures old(PoolDB.Faithful()) ==> PoolDB.Faithful()
    {
      block := rpc.block(hash);
      if block.None? {
        return Failed, None;
      }
      r := ConnectBlock(block.value, rpc);
    }

    /** The part of disconnectBlock that trims the ticket pool to a height. */
    method TrimPool(parentHeight: int) returns (undoDiffs: seq<PoolDiff>)
      requires PoolDB.Valid() && parentHeight >= 0
      modifies PoolDB`tip, PoolDB`diffs, PoolDB`cursor, PoolDB`pool
      ensures PoolDB.Valid() && PoolDB.stored == old(PoolDB.stored) && PoolDB.diffDB == old(PoolDB.diffDB)
      ensures PoolDB.tip == if old(PoolDB.tip) <= parentHeight then old(PoolDB.tip) else parentHeight
      ensures PoolDB.diffs == old(PoolDB.diffs)[..PoolDB.tip] && PoolDB.cursor <= old(PoolDB.cursor)
      ensures |undoDiffs| == old(PoolDB.tip) - PoolDB.tip
      ensures forall i :: 0 <= i < |undoDiffs| ==> undoDiffs[i] == old(PoolDB.diffs)[old(PoolDB.tip) - 1 - i]
      ensures (PoolDB.pool, PoolDB.cursor as nat)
           == TrimRun(old(PoolDB.pool), old(PoolDB.diffs), old(PoolDB.cursor), PoolDB.tip)
      ensures old(PoolDB.Faithful()) ==> PoolDB.Faithful()
    {
      hide PoolAt, SoundTo, Contiguous, Holds, Sum, FailedBackward, Backward, BackwardChecks, RetreatEnd, TrimRun;
      undoDiffs := [];
      var poolDBTip := PoolDB.tip;
      ghost var diffs, pool, cursor := PoolDB.diffs, PoolDB.pool, PoolDB.cursor;
      assert diffs[..poolDBTip] == diffs;
      assert TrimRun(pool, diffs, cursor, poolDBTip) == (pool, cursor) by {
        TrimRunNone(pool, diffs, cursor);
      }
      while poolDBTip > parentHeight
        invariant PoolDB.Valid() && poolDBTip == PoolDB.tip && PoolDB.cursor <= old(PoolDB.cursor)
        invariant PoolDB.stored == old(PoolDB.stored) && PoolDB.diffDB == old(PoolDB.diffDB)
        invariant PoolDB.diffs == diffs[..poolDBTip]
        invariant (if |diffs| <= parentHeight then |diffs| else parentHeight) <= poolDBTip <= |diffs|
        invariant |undoDiffs| == |diffs| - poolDBTip
        invariant forall i :: 0 <= i < |undoDiffs| ==> undoDiffs[i] == diffs[|diffs| - 1 - i]
        invariant (PoolDB.pool, PoolDB.cursor as nat) == TrimRun(pool, diffs, cursor, poolDBTip)
        invariant old(PoolDB.Faithful()) ==> PoolDB.Faithful()
        decreases poolDBTip
      {
        ghost var before := PoolDB.diffs;
        TrimRunCompose(pool, diffs, cursor, poolDBTip, poolDBTip - 1);
        var newTip, undoDiff := PoolDB.Trim();
        assert before == diffs[..poolDBTip] && before == PoolDB.diffs + [undoDiff];
        assert undoDiff == before[poolDBTip - 1] == diffs[poolDBTip - 1];
        undoDiffs := undoDiffs + [undoDiff];
        poolDBTip := newTip;
        assert PoolDB.diffs == before[..poolDBTip] == diffs[..poolDBTip];
      }
    }

    method DisconnectBlock(neglectCache: bool, rpc: Rpc) returns (r: Outcome)
      requires Valid()
      modifies `bestNode, `liveTicketCache, `poolValue
      modifies PoolDB`tip, PoolDB`diffs, PoolDB`cursor, PoolDB`pool
      ensures Valid()
      ensures (r, View()) == Disconnect(rules, old(View()), neglectCache, rpc)
      ensures PoolDB.tip <= old(PoolDB.tip) && PoolDB.cursor <= old(PoolDB.cursor)
      ensures (PoolDB.pool, PoolDB.cursor as nat)
           == TrimRun(old(PoolDB.pool), old(PoolDB.diffs), old(PoolDB.cursor), PoolDB.tip)
      ensures old(PoolDB.Faithful()) ==> PoolDB.Faithful()
    {
      hide Apply, Undo, CacheApply, PoolAt, SoundTo, Contiguous, Holds, Sum, FailedBackward, Backward, TrimRun;
      TrimRunNone(PoolDB.pool, PoolDB.diffs, PoolDB.cursor);
      var tip := rpc.block(TipHash(rules, bestNode));
      if tip.None? {
        return Failed;
      }
      var parentBlock := rpc.block(tip.value.prev);
      if parentBlock.None? {
        return Failed;
      }
      var parentHeight := parentBlock.value.height;
      if parentHeight != |bestNode| - 1 {
        return Panicked;
      }
      ghost var diffs := PoolDB.diffs;
      var undoDiffs := TrimPool(parentHeight);
      // Update liveTicketCache and poolValue.
      ghost var n, live := |diffs|, liveTicketCache;
      if !neglectCache {
        for i := 0 to |undoDiffs|
          invariant liveTicketCache == CacheBackward(live, diffs, n, n - i, rpc.value)
          invariant poolValue == Sum(liveTicketCache)
          modifies `liveTicketCache, `poolValue
        {
          UndoDiff(undoDiffs[i], rpc);
        }
      }
      bestNode := bestNode[..|bestNode| - 1];
      r := Done;
    }

    method DisconnectBlocks(count: int, rpc: Rpc) returns (r: Outcome)
      requires Valid()
      modifies `bestNode, `liveTicketCache, `poolValue
      modifies PoolDB`tip, PoolDB`diffs, PoolDB`cursor, PoolDB`pool
      ensures Valid()
      ensures (r, View()) == DisconnectMany(rules, old(View()), count, rpc)
      ensures PoolDB.tip <= old(PoolDB.tip)
      ensures old(PoolDB.Faithful()) ==> PoolDB.Faithful()
    {
      hide Apply, PoolAt, SoundTo, Contiguous, Holds, Sum, Disconnect;
      var i := 0;
      while i < count
        invariant Valid() && (count >= 0 ==> i <= count) && PoolDB.tip <= old(PoolDB.tip)
        invariant DisconnectMany(rules, old(View()), count, rpc)
               == DisconnectMany(rules, View(), count - i, rpc)
        invariant old(PoolDB.Faithful()) ==> PoolDB.Faithful()
      {
        r := DisconnectBlock(false, rpc);
        if r != Done {
          return;
        }
        i := i + 1;
      }
      r := Done;
    }

    /** Rewind disconnects down to a height, and gives up when the ticket pool turns
        out to be at another height than the node. */
    method Rewind(to: int, neglectCache: bool, rpc: Rpc) returns (r: Outcome)
      requires Valid()
      modifies `bestNode, `liveTicketCache, `poolValue
      modifies PoolDB`tip, PoolDB`diffs, PoolDB`cursor, PoolDB`pool
      ensures Valid()
      ensures |bestNode| <= old(|bestNode|) && bestNode == old(bestNode)[..|bestNode|]
      ensures PoolDB.tip <= old(PoolDB.tip) && PoolDB.diffs == old(PoolDB.diffs)[..PoolDB.tip]
      ensures r == Done ==>
        |bestNode| == (if to < old(|bestNode|) then to else old(|bestNode|))
        && (PoolDB.tip == |bestNode| || (PoolDB.tip == old(PoolDB.tip) && |bestNode| == old(|bestNode|)))
      ensures PoolDB.cursor <= old(PoolDB.cursor)
      ensures (PoolDB.pool, PoolDB.cursor as nat)
           == TrimRun(old(PoolDB.pool), old(PoolDB.diffs), old(PoolDB.cursor), PoolDB.tip)
      ensures
        (old(|bestNode|) > to ==>
           && old(PoolDB.tip == |bestNode|) && 0 <= to && Grounded(rules, old(bestNode))
           && (forall h :: to <= h <= old(|bestNode|) ==> Knows(rules, old(bestNode), h, rpc)))
        ==> r == Done
      ensures old(PoolDB.Faithful()) ==> PoolDB.Faithful()
    {
      hide Holds, Contiguous, PoolAt, SoundTo, Sum, Apply, CacheBackward, Knows, Grounded, TrimRun;
      ghost var node, diffs := bestNode, PoolDB.diffs;
      ghost var pool, cursor := PoolDB.pool, PoolDB.cursor;
      TrimRunNone(pool, diffs, cursor);
      var heightStakeDB := |bestNode|;
      while to < heightStakeDB
        invariant Valid() && heightStakeDB == |bestNode| <= |node| && bestNode == node[..|bestNode|]
        invariant PoolDB.tip <= |diffs| && PoolDB.diffs == diffs[..PoolDB.tip]
        invariant |bestNode| == |node| || PoolDB.tip == |bestNode|
        invariant PoolDB.cursor <= old(PoolDB.cursor)
        invariant (PoolDB.pool, PoolDB.cursor as nat) == TrimRun(pool, diffs, cursor, PoolDB.tip)
        invariant |bestNode| == |node| ==> PoolDB.tip == old(PoolDB.tip)
        invariant if to < |node| then to <= heightStakeDB else heightStakeDB == |node|
        invariant old(PoolDB.Faithful()) ==> PoolDB.Faithful()
      {
        DisconnectTrims(rules, View(), neglectCache, rpc);
        ghost var before, mid := |bestNode|, PoolDB.tip;
        r := DisconnectBlock(neglectCache, rpc);
        TrimRunCompose(pool, diffs, cursor, mid, PoolDB.tip);
        if r != Done {
          if before > 0 && Grounded(rules, node) {
            KnownCanDisconnect(rules, node, before, View(), neglectCache, rpc);
          }
          return;
        }
        heightStakeDB := |bestNode|;
        if PoolDB.tip != heightStakeDB {
          return Failed;
        }
      }
      r := Done;
    }

    /** PopulateLiveTicketCache rebuilds from the stake node the very cache that the
        incremental updates maintain. It reports the failed lookups it passed over. */
    method PopulateLiveTicketCache(rpc: Rpc) returns (ok: bool)
      modifies `liveTicketCache, `poolValue
      ensures liveTicketCache == CacheOf(rpc.value, LiveTickets(rules, bestNode))
      ensures forall t :: t in liveTicketCache <==> t in LiveTickets(rules, bestNode) && rpc.value(t).Some?
      ensures forall t :: t in liveTicketCache ==> Some(liveTicketCache[t]) == rpc.value(t)
      ensures poolValue == Sum(liveTicketCache)
      ensures ok <==> forall t :: t in LiveTickets(rules, bestNode) ==> rpc.value(t).Some?
    {
      hide PoolAt;
      poolValue, liveTicketCache, ok := 0, map[], true;
      var tickets := LiveTickets(rules, bestNode);
      ghost var seen: set<Hash> := {};
      while tickets != {}
        invariant seen + tickets == LiveTickets(rules, bestNode) && seen !! tickets
        invariant liveTicketCache == CacheOf(rpc.value, seen)
        invariant poolValue == Sum(liveTicketCache)
        invariant ok <==> forall t :: t in seen ==> rpc.value(t).Some?
        decreases tickets
      {
        var ticket :| ticket in tickets;
        match rpc.value(ticket) {
          case None =>
            ok := false;
          case Some(value) =>
            SumWith(liveTicketCache, ticket, value);
            poolValue := poolValue + value;
            liveTicketCache := liveTicketCache[ticket := value];
        }
        tickets, seen := tickets - {ticket}, seen + {ticket};
      }
      assert seen == LiveTickets(rules, bestNode);
    }

    /** PoolAtHeight lists, for every height of a settled chain and wherever the
        cursor of the ticket pool was, the tickets live at the stake node of that
        height. */
    method PoolAtHeight(height: int) returns (ok: bool, tickets: seq<Hash>)
      requires Valid()
      modifies PoolDB`cursor, PoolDB`pool
      ensures Valid()
      ensures height > PoolDB.tip || height < 0 ==> !ok
      ensures
        (old(PoolDB.Faithful()) && Accepted(rules, bestNode) && LotterySound(rules)
         && PoolDB.diffs == DiffsOf(rules, bestNode) && 0 <= height <= |bestNode|) ==>
        (ok && PoolDB.Faithful() && NoDup(tickets)
         && Elems(tickets) == LiveTickets(rules, bestNode[..height]))
    {
      hide Apply, Undo, PoolAt, Contiguous, Holds, Sum, LotterySound, WellFormed, Accepted,
        FailedBackward, FailedForward, Backward, Forward, ForwardChecks, BackwardChecks, NoDup, Elems;
      if Accepted(rules, bestNode) && LotterySound(rules)
        && PoolDB.diffs == DiffsOf(rules, bestNode) && 0 <= height <= |bestNode|
      {
        AcceptedIsSound(rules, bestNode);
        DiffsOfPrefix(rules, bestNode, height);
        assert DiffsOf(rules, bestNode[..height])[..height] == PoolDB.diffs[..height];
        PoolAtPrefix(DiffsOf(rules, bestNode[..height]), PoolDB.diffs, height);
      }
      ok, tickets := PoolDB.Pool(height);
    }
  }
}
