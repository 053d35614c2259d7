/** Following the chain (stakedb/chainmonitor.go): the monitor connects new blocks
    and, on a reorganisation, takes the stake database back to the common ancestor
    and up the side chain. The main results say that the database then is exactly
    what connecting that chain from genesis gives, after any run of such steps. */
module ChainMonitors {
  import opened Common
  import opened DiffStore
  import opened PoolDiffs
  import opened StakeNodes
  import opened TicketPools
  import opened StakeDB

  /** txhelpers.ReorgData; the chains do not include the common ancestor. */
  datatype Reorg = Reorg(
    ancestor: Hash,
    newChain: seq<Hash>, newHead: Hash, newHeight: int,
    oldChain: seq<Hash>, oldHead: Hash, oldHeight: int)
  {
    function AncestorHeight(): int {
      newHeight - |newChain|
    }
  }

  /** How a switch ends: on the new chain; with an error on the blocks connected so
      far; with an error and no tip to report; or in a panic. */
  datatype SwitchResult =
    | Switched(height: int, hash: Hash)
    | Stopped(height: int, hash: Hash)
    | Aborted
    | Crashed

  function Switch(rules: Rules, db: Db, reorg: Reorg, rpc: Rpc): (SwitchResult, Db) {
    if reorg.newChain == [] then (Aborted, db)
    else
      var a := reorg.AncestorHeight();
      var (r, down) := DisconnectMany(rules, db, |db.node| - a, rpc);
      if r == Failed then (Aborted, down)
      else if r == Panicked || |down.node| != a then (Crashed, down)
      else
        var (s, up) := ConnectMany(rules, down, reorg.newChain, rpc);
        (SwitchEnd(rules, s, up, reorg, rpc), up)
  }

  function SwitchEnd(rules: Rules, s: Outcome, up: Db, reorg: Reorg, rpc: Rpc): SwitchResult
    requires reorg.newChain != []
  {
    match s
    case Panicked => Crashed
    case Failed =>
      // The tip header is fetched to report how far it got.
      (match rpc.block(TipHash(rules, up.node))
       case None => Crashed
       case Some(tip) => Stopped(|up.node|, tip.hash))
    case Done =>
      match rpc.block(reorg.newChain[|reorg.newChain| - 1])
      case None => Crashed
      case Some(last) => if last.height == |up.node| then Switched(|up.node|, last.hash) else Crashed
  }

  /** The hashes name blocks that the RPC knows, each the child of the one before. */
  ghost predicate LinkedFrom(tip: Hash, height: int, hashes: seq<Hash>, rpc: Rpc)
    decreases |hashes|
  {
    hashes == []
    || match rpc.block(hashes[0])
       case None => false
       case Some(b) => b.hash == hashes[0] && b.prev == tip && b.height == height + 1
                       && LinkedFrom(b.hash, b.height, hashes[1..], rpc)
  }

  function Fetched(hashes: seq<Hash>, rpc: Rpc): seq<Block> {
    if hashes == [] then []
    else
      match rpc.block(hashes[0])
      case None => []
      case Some(b) => [b] + Fetched(hashes[1..], rpc)
  }

  lemma {:induction false} LinkedAreFetched(tip: Hash, height: int, hashes: seq<Hash>, rpc: Rpc)
    requires LinkedFrom(tip, height, hashes, rpc)
    ensures |Fetched(hashes, rpc)| == |hashes|
    ensures forall i :: 0 <= i < |hashes| ==>
      rpc.block(hashes[i]) == Some(Fetched(hashes, rpc)[i])
      && Fetched(hashes, rpc)[i].hash == hashes[i]
      && Fetched(hashes, rpc)[i].height == height + 1 + i
    decreases |hashes|
  {
    if hashes != [] {
      var b := rpc.block(hashes[0]).value;
      LinkedAreFetched(b.hash, b.height, hashes[1..], rpc);
      forall i | 0 <= i < |hashes|
        ensures rpc.block(hashes[i]) == Some(Fetched(hashes, rpc)[i])
          && Fetched(hashes, rpc)[i].hash == hashes[i]
          && Fetched(hashes, rpc)[i].height == height + 1 + i
      {
        if i > 0 {
          assert hashes[i] == hashes[1..][i - 1];
        }
      }
    }
  }

  /** Rebuilding block by block. */
  lemma RebuildSnoc(rules: Rules, node: Node, block: Block)
    requires Grounded(rules, node)
    ensures Rebuild(rules, Blocks(node) + [block]) == node + [LinkFor(rules, node, block)]
    ensures Blocks(node + [LinkFor(rules, node, block)]) == Blocks(node) + [block]
  {
    GroundedIsRebuilt(rules, node);
    var all := Rebuild(rules, Blocks(node) + [block]);
    forall i | 0 <= i < |node|
      ensures all[i] == node[i]
    {
      assert node[i] == Rebuild(rules, Blocks(node))[i];
    }
  }

  lemma RebuildPrefix(rules: Rules, blocks: seq<Block>, n: nat)
    requires n <= |blocks|
    ensures Rebuild(rules, blocks)[..n] == Rebuild(rules, blocks[..n])
  {
  }

  /** Connecting linked blocks to a settled database: all of them are connected
      exactly when the stake node accepts the whole rebuilt chain. Otherwise it stops on
      the longest prefix that is accepted, and the database is settled there. */
  lemma {:induction false} ConnectManyFollows(rules: Rules, db: Db, hashes: seq<Hash>, rpc: Rpc)
    requires Settled(rules, rpc.value, db) && Served(rules, db.node, db.blocks, |hashes|, rpc)
    requires LinkedFrom(TipHash(rules, db.node), |db.node|, hashes, rpc)
    ensures
      var (r, next) := ConnectMany(rules, db, hashes, rpc);
      var target := Blocks(db.node) + Fetched(hashes, rpc);
      && r != Panicked
      && Settled(rules, rpc.value, next)
      && |db.node| <= |next.node| <= |target|
      && Blocks(next.node) == target[..|next.node|]
      && (r == Done <==> next.node == Rebuild(rules, target))
      && (r == Done <==> Accepted(rules, Rebuild(rules, target)))
      && (r != Done ==> |next.node| < |target| && !Accepted(rules, Rebuild(rules, target[..|next.node| + 1])))
    decreases |hashes|
  {
    hide Settled, Served, Accepted, Connect, Rebuild, Blocks, LinkFor;
    var target := Blocks(db.node) + Fetched(hashes, rpc);
    SettledIsRebuilt(rules, rpc.value, db);
    if hashes == [] {
      assert target == Blocks(db.node) == target[..|db.node|];
    } else {
      var block := rpc.block(hashes[0]).value;
      var link := LinkFor(rules, db.node, block);
      var rest := Fetched(hashes[1..], rpc);
      ConnectSettles(rules, db, block, |hashes|, rpc);
      LinkForBlock(rules, db.node, block);
      RebuildSnoc(rules, db.node, block);
      var (r, next) := Connect(rules, db, block, rpc);
      assert target == (Blocks(db.node) + [block]) + rest;
      assert target[..|db.node|] == Blocks(db.node);
      assert target[..|db.node| + 1] == Blocks(db.node) + [block];
      RebuildPrefix(rules, target, |db.node| + 1);
      if r == Done {
        assert Blocks(next.node) == Blocks(db.node) + [block];
        assert TipHash(rules, next.node) == block.hash;
        ConnectManyFollows(rules, next, hashes[1..], rpc);
      } else {
        AcceptedAt(rules, Rebuild(rules, target), |db.node|, db.node, link);
        var refused := Rebuild(rules, target[..|db.node| + 1]);
        assert refused == db.node + [link] == refused[..|db.node| + 1];
        AcceptedAt(rules, refused, |db.node|, db.node, link);
      }
    }
  }

  /** A chain is not accepted when one of its links is not. */
  lemma AcceptedAt(rules: Rules, all: Node, n: nat, node: Node, link: Link)
    requires n < |all| && all[..n + 1] == node + [link] && |node| == n
    ensures Accepted(rules, all) ==> rules.accepts(node, link.block, link.maturing)
  {
    assert all[..n] == all[..n + 1][..n] == node;
    assert all[n] == all[..n + 1][n] == link;
  }

  /** Everything that a settled database holds, as a function of its blocks. */
  lemma SettledIsRebuilt(rules: Rules, value: Hash -> Option<int>, db: Db)
    requires Settled(rules, value, db)
    ensures Grounded(rules, db.node) && Accepted(rules, db.node)
    ensures
      var node := Rebuild(rules, Blocks(db.node));
      && db.node == node
      && db.diffs == DiffsOf(rules, node)
      && db.live == CacheOf(value, LiveTickets(rules, node))
      && Sum(db.live) == Sum(CacheOf(value, LiveTickets(rules, node)))
  {
    GroundedIsRebuilt(rules, db.node);
  }

  /** What the notifier's reorganisation data promises of a settled database: the
      side chain hangs on one of our blocks, whose height follows from the data, the RPC
      still knows the blocks to be disconnected, and it serves the tickets to mature. */
  ghost predicate ReorgFits(rules: Rules, db: Db, reorg: Reorg, rpc: Rpc) {
    var a := reorg.AncestorHeight();
    && reorg.newChain != []
    && 0 <= a <= |db.node|
    && LinkedFrom(BlockAt(rules, db.node, a).hash, a, reorg.newChain, rpc)
    && Served(rules, db.node[..a], db.blocks, |reorg.newChain|, rpc)
    && (forall h :: a <= h <= |db.node| ==> Knows(rules, db.node, h, rpc))
  }

  /** switchToSideChain ends exactly where connecting the ancestor's chain and then
      the new chain from genesis would: it switches exactly when the stake node
      accepts that whole chain. When a block is refused it stops on the longest
      prefix that is accepted, and the database is settled there too. */
  lemma SwitchRebuilds(rules: Rules, db: Db, reorg: Reorg, rpc: Rpc)
    requires Settled(rules, rpc.value, db) && LotterySound(rules)
    requires ReorgFits(rules, db, reorg, rpc)
    ensures
      var (r, next) := Switch(rules, db, reorg, rpc);
      var target := Blocks(db.node)[..reorg.AncestorHeight()] + Fetched(reorg.newChain, rpc);
      && Settled(rules, rpc.value, next)
      && reorg.AncestorHeight() <= |next.node| <= |target|
      && Blocks(next.node) == target[..|next.node|]
      && (r.Switched? <==> Accepted(rules, Rebuild(rules, target)))
      && (r.Switched? ==>
            next.node == Rebuild(rules, target)
            && r == Switched(reorg.newHeight, reorg.newChain[|reorg.newChain| - 1])
            && TipHash(rules, next.node) == r.hash)
      && (!r.Switched? ==>
            r == Stopped(|next.node|, TipHash(rules, next.node))
            && |next.node| < |target| && !Accepted(rules, Rebuild(rules, target[..|next.node| + 1])))
  {
    hide Settled, LotterySound, Accepted, Rebuild, DisconnectMany, ConnectMany, Served;
    var a := reorg.AncestorHeight();
    var count := |db.node| - a;
    DisconnectManySettles(rules, rpc.value, db, count, rpc);
    var (r, down) := DisconnectMany(rules, db, count, rpc);
    assert down.node == db.node[..a];
    assert Blocks(down.node) == Blocks(db.node)[..a];
    assert TipHash(rules, down.node) == BlockAt(rules, db.node, a).hash;
    ConnectManyFollows(rules, down, reorg.newChain, rpc);
    LinkedAreFetched(TipHash(rules, down.node), a, reorg.newChain, rpc);
    var (s, up) := ConnectMany(rules, down, reorg.newChain, rpc);
    if s == Done {
      var target := Blocks(db.node)[..a] + Fetched(reorg.newChain, rpc);
      assert Blocks(up.node)[|up.node| - 1] == target[|target| - 1];
    } else {
      var target := Blocks(down.node) + Fetched(reorg.newChain, rpc);
      assert Blocks(up.node) == target[..|up.node|];
      if |up.node| == a {
        assert BlockAt(rules, up.node, a) == BlockAt(rules, db.node, a) by {
          assert a > 0 ==> Blocks(up.node)[a - 1] == target[a - 1] == Blocks(db.node)[a - 1];
        }
        assert Knows(rules, db.node, a, rpc);
      } else {
        assert Blocks(up.node)[|up.node| - 1] == target[|up.node| - 1];
        assert target[|up.node| - 1] == Fetched(reorg.newChain, rpc)[|up.node| - 1 - a];
      }
    }
  }

  // ------------------------------------------------------------------------
  // How a switch ends when the RPC may not know every block
  // ------------------------------------------------------------------------

  /** The RPC answers the hash of a block with that very block or not at all. */
  predicate Answers(rpc: Rpc, b: Block) {
    rpc.block(b.hash).None? || rpc.block(b.hash) == Some(b)
  }

  ghost predicate Truthful(rules: Rules, node: Node, rpc: Rpc) {
    && rpc.block(rules.genesis.prev).None?
    && forall h: nat :: h <= |node| ==> Answers(rpc, BlockAt(rules, node, h))
  }

  /** What its main chain has at a height is our block or nothing. */
  predicate MainAnswers(rules: Rules, node: Node, m: nat, rpc: Rpc)
    requires m <= |node|
  {
    rpc.BlockAtHeight(m).None? || rpc.BlockAtHeight(m) == Some(BlockAt(rules, node, m))
  }

  /** The hashes are those of a chain of blocks on the given tip. */
  ghost predicate Continues(tip: Block, chain: seq<Block>, hashes: seq<Hash>) {
    && |chain| == |hashes|
    && forall i :: 0 <= i < |chain| ==> ContinuesAt(tip, chain, hashes, i)
  }

  predicate ContinuesAt(tip: Block, chain: seq<Block>, hashes: seq<Hash>, i: nat)
    requires i < |chain| == |hashes|
  {
    && chain[i].hash == hashes[i]
    && chain[i].height == tip.height + 1 + i
    && chain[i].prev == if i == 0 then tip.hash else chain[i - 1].hash
  }

  /** The tickets that mature with the i-th block of a chain on top of the base can be
      had from neither the cache nor the RPC. */
  predicate Unserved(rules: Rules, base: seq<Block>, cache: map<int, Block>, i: nat, rpc: Rpc) {
    var m := |base| + 1 + i - rules.maturity;
    0 <= m <= |base| && m !in cache && rpc.BlockAtHeight(m).None?
  }

  /** All before the i-th block connects, and then its maturing tickets are not served. */
  ghost predicate Stuck(rules: Rules, base: seq<Block>, cache: map<int, Block>, chain: seq<Block>, i: nat, rpc: Rpc)
    requires i < |chain|
  {
    && (forall j :: 0 <= j <= i ==> rpc.block(chain[j].hash).Some?)
    && Accepted(rules, Rebuild(rules, base + chain[..i]))
    && Unserved(rules, base, cache, i, rpc)
  }

  ghost predicate StuckSomewhere(rules: Rules, base: seq<Block>, cache: map<int, Block>, chain: seq<Block>, rpc: Rpc) {
    exists i: nat :: i < |chain| && Stuck(rules, base, cache, chain, i, rpc)
  }

  /** The first block of the chain can be fetched and is accepted. */
  ghost predicate Starts(rules: Rules, base: seq<Block>, chain: seq<Block>, rpc: Rpc) {
    chain != [] && rpc.block(chain[0].hash).Some? && Accepted(rules, Rebuild(rules, base + chain[..1]))
  }

  /** Where a block whose tickets mature with one of the next so many blocks is not
      cached, the RPC's main chain has that very block or none. */
  ghost predicate MaybeServed(rules: Rules, node: Node, cache: map<int, Block>, count: nat, rpc: Rpc) {
    forall m: nat :: m <= |node| < m + rules.maturity <= |node| + count ==>
      m in cache || MainAnswers(rules, node, m, rpc)
  }

  lemma DisconnectOutcome(rules: Rules, db: Db, rpc: Rpc)
    requires Settled(rules, rpc.value, db) && Truthful(rules, db.node, rpc)
    ensures Disconnect(rules, db, false, rpc).0
         == if |db.node| > 0 && Knows(rules, db.node, |db.node|, rpc) && Knows(rules, db.node, |db.node| - 1, rpc)
            then Done else Failed
  {
    hide CacheBackward, Accepted, CacheAgrees, DiffsOf, CacheOf, LiveTickets;
    var n := |db.node|;
    assert Answers(rpc, BlockAt(rules, db.node, n));
    if n > 0 {
      assert GroundedAt(rules, db.node, n);
      assert n > 1 ==> GroundedAt(rules, db.node, n - 1);
      assert Answers(rpc, BlockAt(rules, db.node, n - 1));
    }
  }

  /** Every block from the given height to the tip is known. */
  ghost predicate KnowsFrom(rules: Rules, node: Node, a: int, rpc: Rpc) {
    0 <= a && forall h: nat :: a <= h <= |node| ==> Knows(rules, node, h, rpc)
  }

  /** Disconnecting goes through exactly when all blocks on the way are known. */
  lemma {:induction false} DisconnectManyOutcome(rules: Rules, db: Db, count: int, rpc: Rpc)
    requires Settled(rules, rpc.value, db) && LotterySound(rules) && Truthful(rules, db.node, rpc)
    ensures DisconnectMany(rules, db, count, rpc).0
         == if count <= 0 || KnowsFrom(rules, db.node, |db.node| - count, rpc) then Done else Failed
    decreases count
  {
    hide Settled, LotterySound, Disconnect, Knows, Answers, BlockAt;
    if count > 0 {
      var n := |db.node|;
      DisconnectOutcome(rules, db, rpc);
      DisconnectSettles(rules, rpc.value, db, rpc);
      var (r, next) := Disconnect(rules, db, false, rpc);
      if r == Done {
        TruthfulPrefix(rules, db.node, n - 1, rpc);
        DisconnectManyOutcome(rules, next, count - 1, rpc);
        forall h: nat | h < n
          ensures Knows(rules, next.node, h, rpc) == Knows(rules, db.node, h, rpc)
        {
          KnowsPrefix(rules, db.node, n - 1, h, rpc);
        }
      } else if n - count >= 0 {
        assert !Knows(rules, db.node, n, rpc) || !Knows(rules, db.node, n - 1, rpc);
      }
    }
  }

  lemma TruthfulPrefix(rules: Rules, node: Node, n: nat, rpc: Rpc)
    requires n <= |node| && Truthful(rules, node, rpc)
    ensures Truthful(rules, node[..n], rpc)
  {
    hide Answers;
    forall h: nat | h <= n
      ensures Answers(rpc, BlockAt(rules, node[..n], h))
    {
      assert BlockAt(rules, node[..n], h) == BlockAt(rules, node, h);
    }
  }

  /** Connecting one block of a chain whose tickets may not be served. */
  lemma ConnectOutcome(rules: Rules, db: Db, block: Block, rpc: Rpc)
    requires Settled(rules, rpc.value, db) && MaybeServed(rules, db.node, db.blocks, 1, rpc)
    requires Extends(rules, db.node, block)
    ensures
      var (r, next) := Connect(rules, db, block, rpc);
      var link := LinkFor(rules, db.node, block);
      && (r == Panicked <==> Unserved(rules, Blocks(db.node), db.blocks, 0, rpc))
      && (r != Panicked ==>
            && r == (if rules.accepts(db.node, block, link.maturing) then Done else Failed)
            && next.node == (if r == Done then db.node + [link] else db.node)
            && next.blocks == CacheAfterConnect(rules, db.blocks, block))
      && Settled(rules, rpc.value, next)
  {
    hide Settled, LinkFor, CacheAfterConnect, DiffAt, CacheApply;
    SettledMeans(rules, rpc.value, db);
    var m := |db.node| + 1 - rules.maturity;
    if !Unserved(rules, Blocks(db.node), db.blocks, 0, rpc) {
      assert m >= 0 ==> m in db.blocks || MainAnswers(rules, db.node, m, rpc);
      MaturingIsOurs(rules, db.node, db.blocks, block, rpc);
      RightTicketsSettle(rules, db, block, rpc);
    }
  }

  lemma MaybeServedExtended(rules: Rules, node: Node, cache: map<int, Block>, link: Link, count: nat, rpc: Rpc)
    requires MaybeServed(rules, node, cache, count, rpc) && count > 0
    requires link.block.height == |node| + 1 && rules.maturity >= 1
    ensures MaybeServed(rules, node + [link], CacheAfterConnect(rules, cache, link.block), count - 1, rpc)
  {
    var next, after := node + [link], CacheAfterConnect(rules, cache, link.block);
    forall m: nat | m <= |next| < m + rules.maturity <= |next| + count - 1
      ensures m in after || MainAnswers(rules, next, m, rpc)
    {
      if m <= |node| {
        assert m in cache || MainAnswers(rules, node, m, rpc);
        assert BlockAt(rules, next, m) == BlockAt(rules, node, m);
      }
    }
  }

  lemma MaybeServedFewer(rules: Rules, node: Node, cache: map<int, Block>, count: nat, fewer: nat, rpc: Rpc)
    requires MaybeServed(rules, node, cache, count, rpc) && fewer <= count
    ensures MaybeServed(rules, node, cache, fewer, rpc)
  {
  }

  /** One block further, the rest of the chain gets stuck where it did. */
  lemma StuckLater(rules: Rules, base: seq<Block>, cache: map<int, Block>, chain: seq<Block>, i: nat, rpc: Rpc)
    requires 0 < i < |chain| && chain[0].height == |base| + 1 && rules.maturity >= 1
    requires rpc.block(chain[0].hash).Some?
    ensures Stuck(rules, base, cache, chain, i, rpc)
       <==> Stuck(rules, base + [chain[0]], CacheAfterConnect(rules, cache, chain[0]), chain[1..], i - 1, rpc)
  {
    hide Accepted, Rebuild;
    var rest := chain[1..];
    assert base + chain[..i] == (base + [chain[0]]) + rest[..i - 1];
    assert forall j :: 0 < j <= i ==> rest[j - 1] == chain[j];
    if forall j :: 0 <= j <= i - 1 ==> rpc.block(rest[j].hash).Some? {
      forall j | 0 <= j <= i
        ensures rpc.block(chain[j].hash).Some?
      {
        assert j > 0 ==> chain[j] == rest[j - 1];
      }
    }
  }

  /** Connecting a chain of blocks that may be unknown, refused or without their maturing
      tickets: when it panics, and what is left to report when it fails. */
  lemma {:induction false} ConnectManyEnds(rules: Rules, db: Db, chain: seq<Block>, hashes: seq<Hash>, rpc: Rpc)
    requires Settled(rules, rpc.value, db) && MaybeServed(rules, db.node, db.blocks, |hashes|, rpc)
    requires Continues(BlockAt(rules, db.node, |db.node|), chain, hashes)
    requires forall b :: b in chain ==> Answers(rpc, b)
    ensures
      var (r, next) := ConnectMany(rules, db, hashes, rpc);
      var base := Blocks(db.node);
      && Settled(rules, rpc.value, next)
      && (r == Panicked <==> StuckSomewhere(rules, base, db.blocks, chain, rpc))
      && (r != Panicked ==> |next.node| >= |db.node|)
      && (r == Failed && next.node == db.node ==> !Starts(rules, base, chain, rpc))
      && (r == Failed && next.node != db.node ==> rpc.block(TipHash(rules, next.node)).Some?)
      && (r == Failed && !Starts(rules, base, chain, rpc) ==> next.node == db.node)
      && (r == Done ==> |next.node| == |db.node| + |chain|
                        && (chain != [] ==> Starts(rules, base, chain, rpc))
                        && forall b :: b in chain ==> rpc.block(b.hash) == Some(b))
    decreases |hashes|
  {
    hide Settled, Accepted, Connect, Rebuild, LinkFor, MaybeServed, CacheAfterConnect, Stuck, Blocks;
    var base := Blocks(db.node);
    SettledIsRebuilt(rules, rpc.value, db);
    if hashes == [] {
    } else {
      var block := chain[0];
      assert ContinuesAt(BlockAt(rules, db.node, |db.node|), chain, hashes, 0);
      assert Answers(rpc, block);
      TipHeight(rules, rpc.value, db);
      FirstStuck(rules, base, db.blocks, chain, rpc);
      if rpc.block(block.hash).None? {
        NotStuck(rules, base, db.blocks, chain, rpc);
      } else {
        var link := LinkFor(rules, db.node, block);
        assert Accepted(rules, Rebuild(rules, base + chain[..0])) by {
          assert base + chain[..0] == base;
        }
        MaybeServedFewer(rules, db.node, db.blocks, |hashes|, 1, rpc);
        ConnectOutcome(rules, db, block, rpc);
        LinkForBlock(rules, db.node, block);
        RebuildSnoc(rules, db.node, block);
        assert chain[..1] == [block];
        var (r, next) := Connect(rules, db, block, rpc);
        AcceptedNext(rules, db.node, link);
        if r == Failed {
          Refused(rules, base, db.blocks, chain, db.node, link, rpc);
        } else if r == Done {
          MaybeServedExtended(rules, db.node, db.blocks, link, |hashes|, rpc);
          RestContinues(rules, db.node, link, chain, hashes);
          StuckShift(rules, base, db.blocks, chain, rpc);
          assert forall b :: b in chain[1..] ==> b in chain;
          ConnectManyEnds(rules, next, chain[1..], hashes[1..], rpc);
          assert forall b :: b in chain ==> b == block || b in chain[1..];
        }
      }
    }
  }

  lemma AcceptedNext(rules: Rules, node: Node, link: Link)
    ensures (Accepted(rules, node) ==>
               (Accepted(rules, node + [link]) <==> rules.accepts(node, link.block, link.maturing)))
  {
    if Accepted(rules, node) && rules.accepts(node, link.block, link.maturing) {
      AcceptedExtended(rules, node, link);
    }
    assert (node + [link])[..|node|] == node && (node + [link])[|node|] == link;
  }

  /** The first block is stuck when it is known and its tickets are not served. */
  lemma FirstStuck(rules: Rules, base: seq<Block>, cache: map<int, Block>, chain: seq<Block>, rpc: Rpc)
    requires chain != [] && Accepted(rules, Rebuild(rules, base))
    ensures Stuck(rules, base, cache, chain, 0, rpc)
       <==> rpc.block(chain[0].hash).Some? && Unserved(rules, base, cache, 0, rpc)
    ensures Stuck(rules, base, cache, chain, 0, rpc) ==> StuckSomewhere(rules, base, cache, chain, rpc)
  {
    hide Accepted, Rebuild;
    assert base + chain[..0] == base;
  }

  lemma NotStuck(rules: Rules, base: seq<Block>, cache: map<int, Block>, chain: seq<Block>, rpc: Rpc)
    requires chain != [] && rpc.block(chain[0].hash).None?
    ensures !StuckSomewhere(rules, base, cache, chain, rpc)
  {
    hide Accepted, Rebuild, Unserved;
  }

  /** Nothing after a refused block is reached. */
  lemma Refused(rules: Rules, base: seq<Block>, cache: map<int, Block>, chain: seq<Block>,
                node: Node, link: Link, rpc: Rpc)
    requires chain != [] && Grounded(rules, node) && base == Blocks(node) && link == LinkFor(rules, node, chain[0])
    requires !rules.accepts(node, link.block, link.maturing) && !Stuck(rules, base, cache, chain, 0, rpc)
    ensures !StuckSomewhere(rules, base, cache, chain, rpc)
  {
    hide Accepted, LinkFor, Grounded, Unserved, Rebuild, Blocks;
    forall i: nat | i < |chain| && Stuck(rules, base, cache, chain, i, rpc)
      ensures false
    {
      var all := Rebuild(rules, base + chain[..i]);
      RebuildSnoc(rules, node, chain[0]);
      RebuildPrefix(rules, base + chain[..i], |base| + 1);
      assert (base + chain[..i])[..|base| + 1] == base + [chain[0]];
      AcceptedAt(rules, all, |node|, node, link);
    }
  }

  lemma RestContinues(rules: Rules, node: Node, link: Link, chain: seq<Block>, hashes: seq<Hash>)
    requires Continues(BlockAt(rules, node, |node|), chain, hashes) && chain != [] && link.block == chain[0]
    requires BlockAt(rules, node, |node|).height == |node|
    ensures BlockAt(rules, node + [link], |node| + 1) == chain[0]
    ensures Continues(chain[0], chain[1..], hashes[1..])
  {
    assert ContinuesAt(BlockAt(rules, node, |node|), chain, hashes, 0);
    forall i | 0 <= i < |chain| - 1
      ensures ContinuesAt(chain[0], chain[1..], hashes[1..], i)
    {
      assert ContinuesAt(BlockAt(rules, node, |node|), chain, hashes, i + 1);
    }
  }

  lemma StuckShift(rules: Rules, base: seq<Block>, cache: map<int, Block>, chain: seq<Block>, rpc: Rpc)
    requires chain != [] && chain[0].height == |base| + 1 && rules.maturity >= 1
    requires rpc.block(chain[0].hash).Some? && !Stuck(rules, base, cache, chain, 0, rpc)
    ensures StuckSomewhere(rules, base, cache, chain, rpc)
       <==> StuckSomewhere(rules, base + [chain[0]], CacheAfterConnect(rules, cache, chain[0]), chain[1..], rpc)
  {
    hide Stuck, CacheAfterConnect;
    var after, rest := CacheAfterConnect(rules, cache, chain[0]), chain[1..];
    if i: nat :| i < |chain| && Stuck(rules, base, cache, chain, i, rpc) {
      StuckLater(rules, base, cache, chain, i, rpc);
    }
    if k: nat :| k < |rest| && Stuck(rules, base + [chain[0]], after, rest, k, rpc) {
      StuckLater(rules, base, cache, chain, k + 1, rpc);
    }
  }

  lemma TipHeight(rules: Rules, value: Hash -> Option<int>, db: Db)
    requires Settled(rules, value, db)
    ensures BlockAt(rules, db.node, |db.node|).height == |db.node|
    ensures rules.maturity >= 1
  {
    if |db.node| > 0 {
      assert GroundedAt(rules, db.node, |db.node|);
    }
  }

  /** The new chain is a real chain of blocks on the ancestor, of which the RPC may not
      know all, and where it answers it answers truthfully. */
  ghost predicate RealChain(rules: Rules, db: Db, reorg: Reorg, chain: seq<Block>, rpc: Rpc) {
    var a := reorg.AncestorHeight();
    && (forall b :: b in chain ==> Answers(rpc, b))
    && (0 <= a <= |db.node| ==>
          Continues(BlockAt(rules, db.node, a), chain, reorg.newChain)
          && MaybeServed(rules, db.node[..a], db.blocks, |reorg.newChain|, rpc))
  }

  ghost predicate RealReorg(rules: Rules, db: Db, reorg: Reorg, chain: seq<Block>, rpc: Rpc) {
    Truthful(rules, db.node, rpc) && RealChain(rules, db, reorg, chain, rpc)
  }

  /** There is no side chain, or a block to be disconnected or the ancestor is unknown. */
  ghost predicate MustAbort(rules: Rules, node: Node, reorg: Reorg, rpc: Rpc) {
    reorg.newChain == []
    || (reorg.AncestorHeight() < |node| && !KnowsFrom(rules, node, reorg.AncestorHeight(), rpc))
  }

  /** The ancestor is above the tip; or the tickets maturing with a block that is reached
      are not served; or not even the first block connects and the tip is unknown. */
  ghost predicate MustCrash(rules: Rules, db: Db, reorg: Reorg, chain: seq<Block>, rpc: Rpc) {
    var a := reorg.AncestorHeight();
    && !MustAbort(rules, db.node, reorg, rpc)
    && (a > |db.node|
        || (0 <= a
            && var base := Blocks(db.node)[..a];
               StuckSomewhere(rules, base, db.blocks, chain, rpc)
               || (!Starts(rules, base, chain, rpc) && !Knows(rules, db.node, a, rpc))))
  }

  /** However far a switch gets, and even when it fails or panics on the way, it leaves a
      settled database settled. */
  lemma SwitchSettles(rules: Rules, db: Db, reorg: Reorg, chain: seq<Block>, rpc: Rpc)
    requires Settled(rules, rpc.value, db) && LotterySound(rules) && RealChain(rules, db, reorg, chain, rpc)
    ensures Settled(rules, rpc.value, Switch(rules, db, reorg, rpc).1)
  {
    hide Settled, LotterySound, DisconnectMany, ConnectMany, StuckSomewhere, Starts, Knows, Blocks, MaybeServed;
    var a := reorg.AncestorHeight();
    var count := |db.node| - a;
    DisconnectManySettles(rules, rpc.value, db, count, rpc);
    var (r, down) := DisconnectMany(rules, db, count, rpc);
    if reorg.newChain != [] && r == Done && |down.node| == a {
      assert down.node == db.node[..a];
      assert BlockAt(rules, down.node, a) == BlockAt(rules, db.node, a);
      ConnectManyEnds(rules, down, chain, reorg.newChain, rpc);
    }
  }

  /** Exactly when a switch fails without a tip to report, and exactly when it panics. */
  lemma SwitchEndsExactly(rules: Rules, db: Db, reorg: Reorg, chain: seq<Block>, rpc: Rpc)
    requires Settled(rules, rpc.value, db) && LotterySound(rules)
    requires RealReorg(rules, db, reorg, chain, rpc)
    ensures Switch(rules, db, reorg, rpc).0.Aborted? <==> MustAbort(rules, db.node, reorg, rpc)
    ensures Switch(rules, db, reorg, rpc).0.Crashed? <==> MustCrash(rules, db, reorg, chain, rpc)
    ensures Settled(rules, rpc.value, Switch(rules, db, reorg, rpc).1)
  {
    hide Settled, LotterySound, DisconnectMany, ConnectMany, StuckSomewhere, Starts, Knows, Truthful, Blocks;
    hide MaybeServed;
    SwitchSettles(rules, db, reorg, chain, rpc);
    var a := reorg.AncestorHeight();
    var count := |db.node| - a;
    if reorg.newChain != [] {
      DisconnectManyOutcome(rules, db, count, rpc);
      DisconnectManySettles(rules, rpc.value, db, count, rpc);
      var (r, down) := DisconnectMany(rules, db, count, rpc);
      if r == Done && a <= |db.node| {
        if count == 0 {
          assert db.node[..a] == db.node;
        }
        assert down.node == db.node[..a];
        BlocksPrefix(db.node, a);
        TipKnown(rules, db.node, a, rpc);
        ConnectManyEnds(rules, down, chain, reorg.newChain, rpc);
        LastOfChain(rules, db, a, chain, reorg.newChain, rpc);
      }
    }
  }

  lemma BlocksPrefix(node: Node, a: nat)
    requires a <= |node|
    ensures Blocks(node[..a]) == Blocks(node)[..a]
  {
  }

  lemma TipKnown(rules: Rules, node: Node, a: nat, rpc: Rpc)
    requires a <= |node| && Truthful(rules, node, rpc)
    ensures BlockAt(rules, node[..a], a) == BlockAt(rules, node, a)
    ensures rpc.block(TipHash(rules, node[..a])).Some? <==> Knows(rules, node, a, rpc)
  {
    assert Answers(rpc, BlockAt(rules, node, a));
  }

  lemma LastOfChain(rules: Rules, db: Db, a: nat, chain: seq<Block>, hashes: seq<Hash>, rpc: Rpc)
    requires Settled(rules, rpc.value, db) && a <= |db.node| && hashes != []
    requires Continues(BlockAt(rules, db.node, a), chain, hashes)
    ensures chain[|chain| - 1] in chain && chain[|chain| - 1].hash == hashes[|hashes| - 1]
    ensures chain[|chain| - 1].height == a + |chain|
  {
    assert ContinuesAt(BlockAt(rules, db.node, a), chain, hashes, |chain| - 1);
    if a > 0 {
      assert GroundedAt(rules, db.node, a);
    }
  }

  // ------------------------------------------------------------------------
  // Runs
  // ------------------------------------------------------------------------

  /** One thing that happens to the database, with the RPC as it is then. */
  datatype Event =
    | NewBlock(block: Block, rpc: Rpc)
    | TakeBack(count: int, rpc: Rpc)
    | SideChain(reorg: Reorg, rpc: Rpc, chain: seq<Block>)  // the blocks that the new chain names

  function Step(rules: Rules, db: Db, e: Event): Db {
    match e
    case NewBlock(block, rpc) => Connect(rules, db, block, rpc).1
    case TakeBack(count, rpc) => DisconnectMany(rules, db, count, rpc).1
    case SideChain(reorg, rpc, _) => Switch(rules, db, reorg, rpc).1
  }

  function Run(rules: Rules, db: Db, events: seq<Event>): Db
    decreases |events|
  {
    if events == [] then db else Run(rules, Step(rules, db, events[0]), events[1..])
  }

  /** The event is one that a database on this chain can follow: a block fits, and a side
      chain is a real one. The RPC may fail to return blocks at any point, blocks may be
      refused, what is disconnected may be anything, and a switch may end anywhere. */
  ghost predicate Orderly(rules: Rules, value: Hash -> Option<int>, db: Db, e: Event) {
    match e
    case NewBlock(block, rpc) => rpc.value == value && Fits(rules, db, block, rpc)
    case TakeBack(_, rpc) => rpc.value == value
    case SideChain(reorg, rpc, chain) => rpc.value == value && RealChain(rules, db, reorg, chain, rpc)
  }

  ghost predicate OrderlyRun(rules: Rules, value: Hash -> Option<int>, db: Db, events: seq<Event>)
    decreases |events|
  {
    events == []
    || (Orderly(rules, value, db, events[0])
        && OrderlyRun(rules, value, Step(rules, db, events[0]), events[1..]))
  }

  lemma StepSettles(rules: Rules, value: Hash -> Option<int>, db: Db, e: Event)
    requires Settled(rules, value, db) && LotterySound(rules) && Orderly(rules, value, db, e)
    ensures Settled(rules, value, Step(rules, db, e))
  {
    hide Settled, LotterySound, Connect, DisconnectMany, Switch, RealChain, Fits;
    match e
    case NewBlock(block, rpc) => ConnectSettlesExactly(rules, db, block, rpc);
    case TakeBack(count, rpc) => DisconnectManySettles(rules, value, db, count, rpc);
    case SideChain(reorg, rpc, chain) => SwitchSettles(rules, db, reorg, chain, rpc);
  }

  lemma {:induction false} RunSettles(rules: Rules, value: Hash -> Option<int>, db: Db, events: seq<Event>)
    requires Settled(rules, value, db) && LotterySound(rules) && OrderlyRun(rules, value, db, events)
    ensures Settled(rules, value, Run(rules, db, events))
    decreases |events|
  {
    hide Settled, LotterySound, Orderly, Step;
    if events != [] {
      StepSettles(rules, value, db, events[0]);
      RunSettles(rules, value, Step(rules, db, events[0]), events[1..]);
    }
  }

  function GenesisDb(): Db {
    Db([], map[], map[], [])
  }

  lemma GenesisSettled(rules: Rules, value: Hash -> Option<int>)
    requires rules.genesis.height == 0 && rules.maturity >= 1
    ensures Settled(rules, value, GenesisDb())
  {
  }

  /** Path independence. Two orderly runs from genesis, of whatever blocks, rewinds
      and reorganisations, that end on the same blocks end with the same node, the
      same pool diffs, the same live tickets with the same amounts and so the same
      pool value: those of the chain rebuilt from genesis. */
  lemma PathIndependence(rules: Rules, value: Hash -> Option<int>, first: seq<Event>, second: seq<Event>)
    requires rules.genesis.height == 0 && rules.maturity >= 1 && LotterySound(rules)
    requires OrderlyRun(rules, value, GenesisDb(), first)
    requires OrderlyRun(rules, value, GenesisDb(), second)
    requires Blocks(Run(rules, GenesisDb(), first).node) == Blocks(Run(rules, GenesisDb(), second).node)
    ensures
      var a, b := Run(rules, GenesisDb(), first), Run(rules, GenesisDb(), second);
      var node := Rebuild(rules, Blocks(a.node));
      && a.node == b.node == node
      && a.diffs == b.diffs == DiffsOf(rules, node)
      && a.live == b.live == CacheOf(value, LiveTickets(rules, node))
  {
    hide Settled, LotterySound, OrderlyRun, Run, Rebuild;
    GenesisSettled(rules, value);
    RunSettles(rules, value, GenesisDb(), first);
    RunSettles(rules, value, GenesisDb(), second);
    SettledIsRebuilt(rules, value, Run(rules, GenesisDb(), first));
    SettledIsRebuilt(rules, value, Run(rules, GenesisDb(), second));
  }

  function Hashes(blocks: seq<Block>): (hashes: seq<Hash>)
    ensures |hashes| == |blocks|
  {
    seq(|blocks|, i requires 0 <= i < |blocks| => blocks[i].hash)
  }

  lemma {:induction false} ChainIsLinked(rules: Rules, node: Node, from: nat, rpc: Rpc)
    requires Grounded(rules, node) && from <= |node|
    requires forall h :: from < h <= |node| ==> Knows(rules, node, h, rpc)
    ensures LinkedFrom(BlockAt(rules, node, from).hash, from, Hashes(Blocks(node))[from..], rpc)
    ensures Fetched(Hashes(Blocks(node))[from..], rpc) == Blocks(node)[from..]
    decreases |node| - from
  {
    var hashes := Hashes(Blocks(node));
    if from < |node| {
      assert Knows(rules, node, from + 1, rpc);
      assert GroundedAt(rules, node, from + 1);
      ChainIsLinked(rules, node, from + 1, rpc);
      assert hashes[from..][1..] == hashes[from + 1..];
      assert Blocks(node)[from..] == [Blocks(node)[from]] + Blocks(node)[from + 1..];
    }
  }

  /** What a settled database holds is also what fetching its chain block by block
      and connecting it to an empty database ends with. */
  lemma ReplayFromGenesis(rules: Rules, db: Db, rpc: Rpc)
    requires Settled(rules, rpc.value, db)
    requires rpc.BlockAtHeight(0) == Some(rules.genesis)
    requires forall h :: 0 < h <= |db.node| ==> Knows(rules, db.node, h, rpc)
    ensures
      var (r, replayed) := ConnectMany(rules, GenesisDb(), Hashes(Blocks(db.node)), rpc);
      && r == Done
      && replayed.node == db.node && replayed.diffs == db.diffs && replayed.live == db.live
  {
    hide Settled, Accepted, ConnectMany, Rebuild, Knows, LinkedFrom;
    SettledIsRebuilt(rules, rpc.value, db);
    GenesisSettled(rules, rpc.value);
    ChainIsLinked(rules, db.node, 0, rpc);
    var hashes := Hashes(Blocks(db.node));
    assert hashes[0..] == hashes && Blocks(db.node)[0..] == Blocks(db.node);
    assert Served(rules, [], map[], |hashes|, rpc);
    assert Blocks([]) + Fetched(hashes, rpc) == Blocks(db.node);
    ConnectManyFollows(rules, GenesisDb(), hashes, rpc);
    var (r, replayed) := ConnectMany(rules, GenesisDb(), hashes, rpc);
    SettledIsRebuilt(rules, rpc.value, replayed);
  }

  // ------------------------------------------------------------------------
  // The monitor object
  // ------------------------------------------------------------------------

  /** What a handler gives back to the notifier. */
  datatype Handled = Ok | Error | Crash

  class ChainMonitor {
    const db: StakeDatabase

    constructor (db: StakeDatabase)
      ensures this.db == db
    {
      this.db := db;
    }

    method ConnectBlock(hash: Hash, rpc: Rpc) returns (h: Handled)
      requires db.Valid() && db.PoolDB.tip < MAX_INT64
      modifies db, db.PoolDB
      ensures db.Valid() && db.PoolDB.tip <= old(db.PoolDB.tip) + 1
      ensures (h, db.View()) ==
        match rpc.block(hash)
        case None => (Error, old(db.View()))
        case Some(b) =>
          var (r, next) := Connect(db.rules, old(db.View()), b, rpc);
          (match r case Done => Ok case Failed => Error case Panicked => Crash, next)
      ensures old(db.PoolDB.Faithful()) ==> db.PoolDB.Faithful()
    {
      var r, _ := db.ConnectBlockHash(hash, rpc);
      h := match r case Done => Ok case Failed => Error case Panicked => Crash;
    }

    method SwitchToSideChain(reorg: Reorg, rpc: Rpc) returns (r: SwitchResult)
      requires db.Valid() && db.PoolDB.tip + |reorg.newChain| <= MAX_INT64
      modifies db, db.PoolDB
      ensures db.Valid() && db.PoolDB.tip <= old(db.PoolDB.tip) + |reorg.newChain|
      ensures (r, db.View()) == Switch(db.rules, old(db.View()), reorg, rpc)
      ensures old(db.PoolDB.Faithful()) ==> db.PoolDB.Faithful()
    {
      hide Connect, DisconnectMany, Holds, Contiguous, PoolAt, SoundTo, Sum, SwitchEnd;
      if |reorg.newChain| == 0 {
        return Aborted;
      }
      var newChain := reorg.newChain;
      var commonAncestorHeight := reorg.newHeight - |newChain|;
      var mainTip := |db.bestNode|;
      var err := db.DisconnectBlocks(mainTip - commonAncestorHeight, rpc);
      if err == Failed {
        return Aborted;
      }
      if err == Panicked || |db.bestNode| != commonAncestorHeight {
        return Crashed;
      }
      ghost var down := db.View();
      ghost var tip := db.PoolDB.tip;
      assert newChain[0..] == newChain;
      for i := 0 to |newChain|
        invariant db.Valid() && db.PoolDB.tip <= tip + i
        invariant ConnectMany(db.rules, down, newChain, rpc)
               == ConnectMany(db.rules, db.View(), newChain[i..], rpc)
        invariant i > 0 ==> rpc.block(newChain[i - 1]).Some?
        invariant old(db.PoolDB.Faithful()) ==> db.PoolDB.Faithful()
      {
        assert newChain[i..][1..] == newChain[i + 1..];
        var s, block := db.ConnectBlockHash(newChain[i], rpc);
        if s != Done {
          r := ReportEnd(s, reorg, rpc);
          return;
        }
      }
      r := ReportEnd(Done, reorg, rpc);
    }

    /** The tip that a switch reports. */
    method ReportEnd(s: Outcome, reorg: Reorg, rpc: Rpc) returns (r: SwitchResult)
      requires reorg.newChain != []
      ensures r == SwitchEnd(db.rules, s, db.View(), reorg, rpc)
    {
      if s == Panicked {
        return Crashed;
      }
      var tip := rpc.block(if s == Done then reorg.newChain[|reorg.newChain| - 1]
                           else TipHash(db.rules, db.bestNode));
      if tip.None? || (s == Done && tip.value.height != |db.bestNode|) {
        return Crashed;
      }
      r := if s == Done then Switched(|db.bestNode|, tip.value.hash)
           else Stopped(|db.bestNode|, tip.value.hash);
    }

    /** ReorgHandler: an error that comes without a tip hash is not survived, since
        the hash is compared all the same. A tip other than the one announced is
        only logged. */
    method ReorgHandler(reorg: Reorg, rpc: Rpc) returns (h: Handled)
      requires db.Valid() && db.PoolDB.tip + |reorg.newChain| <= MAX_INT64
      modifies db, db.PoolDB
      ensures db.Valid() && db.PoolDB.tip <= old(db.PoolDB.tip) + |reorg.newChain|
      ensures
        var (r, next) := Switch(db.rules, old(db.View()), reorg, rpc);
        db.View() == next
        && h == match r case Switched(_, _) => Ok case Stopped(_, _) => Error case _ => Crash
      ensures old(Settled(db.rules, rpc.value, db.View())) && LotterySound(db.rules) ==>
        forall chain :: RealReorg(db.rules, old(db.View()), reorg, chain, rpc) ==>
          (h == Crash <==> MustAbort(db.rules, old(db.bestNode), reorg, rpc)
                           || MustCrash(db.rules, old(db.View()), reorg, chain, rpc))
      ensures old(db.PoolDB.Faithful()) ==> db.PoolDB.Faithful()
    {
      hide Switch, Settled, LotterySound, RealReorg, MustAbort, MustCrash;
      ghost var before := db.View();
      if Settled(db.rules, rpc.value, before) && LotterySound(db.rules) {
        forall chain | RealReorg(db.rules, before, reorg, chain, rpc)
          ensures Switch(db.rules, before, reorg, rpc).0.Aborted? <==> MustAbort(db.rules, before.node, reorg, rpc)
          ensures Switch(db.rules, before, reorg, rpc).0.Crashed? <==> MustCrash(db.rules, before, reorg, chain, rpc)
        {
          SwitchEndsExactly(db.rules, before, reorg, chain, rpc);
        }
      }
      var r := SwitchToSideChain(reorg, rpc);
      h := match r case Switched(_, _) => Ok case Stopped(_, _) => Error case _ => Crash;
    }
  }
}
