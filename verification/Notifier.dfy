/** The notifier (notification/notifier.go) in front of the stake database: messages
    are served one at a time, a block only when it connects to the previous one, and
    the two stay in step over any queue of genuine messages. */
module Notifiers {
  import opened Common
  import opened StakeNodes
  import opened TicketPools
  import opened StakeDB
  import opened ChainMonitors
  import opened Ancestry

  datatype Message =
    | BlockMsg(header: Block)
    | ReorgMsg(oldHead: Hash, oldHeight: int, newHead: Hash, newHeight: int)
    | TxMsg
    | UnknownMsg

  // ------------------------------------------------------------------------
  // A settled chain is a branch of the block tree
  // ------------------------------------------------------------------------

  lemma {:induction false} ChainIsBranch(rules: Rules, node: Node, rpc: Rpc, n: nat, h: nat)
    requires Grounded(rules, node) && KnowsAll(rules, node, rpc) && Tree(rpc.block)
    requires h <= n <= |node|
    ensures var tip := BlockAt(rules, node, n).hash;
      rpc.block(tip).Some? && HeightOf(rpc.block, tip) == n
      && AncestorAt(rpc.block, tip, h) == BlockAt(rules, node, h).hash
    decreases n - h
  {
    hide Tree;
    assert Knows(rules, node, n, rpc);
    if n > 0 {
      assert GroundedAt(rules, node, n);
      assert Knows(rules, node, n - 1, rpc);
    }
    if h < n {
      ChainIsBranch(rules, node, rpc, n - 1, h);
    }
  }

  /** The part of a branch from its i-th block up is linked, as the monitor needs it. */
  lemma {:induction false} BranchLinks(rpc: Rpc, tip: Hash, from: nat, chain: seq<Hash>, i: nat)
    requires Tree(rpc.block) && rpc.block(tip).Some? && from < HeightOf(rpc.block, tip)
    requires IsBranch(rpc.block, tip, from, chain) && i <= |chain|
    ensures LinkedFrom(AncestorAt(rpc.block, tip, from + i), from + i, chain[i..], rpc)
    decreases |chain| - i
  {
    hide Tree, AncestorAt;
    if i < |chain| {
      BranchIsLinked(rpc.block, tip, from, chain);
      assert LinkedAt(rpc.block, AncestorAt(rpc.block, tip, from), from, chain, i);
      InTree(rpc.block, chain[i]);
      BranchLinks(rpc, tip, from, chain, i + 1);
      assert chain[i] == AncestorAt(rpc.block, tip, from + 1 + i);
      assert chain[i..][1..] == chain[i + 1..];
      assert i > 0 ==> chain[i - 1] == AncestorAt(rpc.block, tip, from + 1 + (i - 1));
    }
  }

  /** At each height whose tickets mature with a block of the tip's branch above the base,
      the RPC's main chain is that branch. Elsewhere it may have moved on to another. */
  ghost predicate MainServes(maturity: nat, rpc: Rpc, tip: Hash, base: nat)
    requires Tree(rpc.block) && rpc.block(tip).Some? && base <= HeightOf(rpc.block, tip)
  {
    forall m: nat :: m <= base < m + maturity <= HeightOf(rpc.block, tip) ==>
      rpc.main(m) == Some(AncestorAt(rpc.block, tip, m))
  }

  // ------------------------------------------------------------------------
  // Genuine messages
  // ------------------------------------------------------------------------

  /** What the message says is so: its blocks are in the tree the RPC serves, and the
      RPC's main chain serves the tickets that mature with the blocks to be connected. */
  ghost predicate Genuine(maturity: nat, msg: Message, rpc: Rpc) {
    && Tree(rpc.block)
    && match msg
       case BlockMsg(header) =>
         && rpc.block(header.hash) == Some(header)
         && (header.height > 0 ==> MainServes(maturity, rpc, header.hash, header.height - 1))
       case ReorgMsg(oldHead, oldHeight, newHead, newHeight) =>
         && rpc.block(oldHead).Some? && rpc.block(newHead).Some?
         && newHeight == HeightOf(rpc.block, newHead)
         && forall c: nat :: MeetAt(rpc.block, newHead, oldHead, c) && c <= HeightOf(rpc.block, newHead) ==>
              MainServes(maturity, rpc, newHead, c)
       case _ => true
  }

  /** A block that connects to the tip of a settled chain extends it, and the tickets
      maturing with it are served. */
  lemma GenuineBlockExtends(rules: Rules, db: Db, header: Block, rpc: Rpc)
    requires Settled(rules, rpc.value, db) && KnowsAll(rules, db.node, rpc)
    requires Genuine(rules.maturity, BlockMsg(header), rpc) && header.prev == TipHash(rules, db.node)
    ensures Extends(rules, db.node, header) && Served(rules, db.node, db.blocks, 1, rpc)
  {
    hide Accepted, CacheAgrees, DiffsOf, CacheOf, LiveTickets;
    var n := |db.node|;
    InTree(rpc.block, header.hash);
    ChainIsBranch(rules, db.node, rpc, n, n);
    forall m: nat | m <= n < m + rules.maturity <= n + 1
      ensures ServedAt(rules, db.node, db.blocks, rpc, m)
    {
      ChainIsBranch(rules, db.node, rpc, n, m);
      assert Knows(rules, db.node, m, rpc);
      assert rpc.main(m) == Some(AncestorAt(rpc.block, header.hash, m));
      assert AncestorAt(rpc.block, header.hash, m) == AncestorAt(rpc.block, header.prev, m);
    }
  }

  /** The blocks of a tip's branch from just above genesis up to the tip. */
  ghost function ChainOf(fetch: Fetch, tip: Hash): (blocks: seq<Block>)
    requires Tree(fetch) && fetch(tip).Some?
    ensures |blocks| == HeightOf(fetch, tip)
  {
    seq(HeightOf(fetch, tip), i requires 0 <= i < HeightOf(fetch, tip) => fetch(AncestorAt(fetch, tip, i + 1)).value)
  }

  /** The stake node accepts every block when the tip's branch is rebuilt from genesis. */
  ghost predicate Rebuildable(rules: Rules, tip: Hash, rpc: Rpc) {
    Tree(rpc.block) && rpc.block(tip).Some? && Accepted(rules, Rebuild(rules, ChainOf(rpc.block, tip)))
  }

  /** A settled chain is all of its tip's branch. */
  lemma StepChain(rules: Rules, db: Db, previous: Hash, rpc: Rpc)
    requires InStep(rules, db, previous, rpc) && Tree(rpc.block)
    ensures rpc.block(previous).Some? && ChainOf(rpc.block, previous) == Blocks(db.node)
    ensures Rebuildable(rules, previous, rpc)
  {
    hide Tree, AncestorAt, Accepted, Rebuild, DiffsOf, LiveTickets, CacheAgrees;
    var n := |db.node|;
    ChainIsBranch(rules, db.node, rpc, n, n);
    forall i | 0 <= i < n
      ensures ChainOf(rpc.block, previous)[i] == Blocks(db.node)[i]
    {
      ChainIsBranch(rules, db.node, rpc, n, i + 1);
      assert Knows(rules, db.node, i + 1, rpc);
    }
    SettledIsRebuilt(rules, rpc.value, db);
  }

  /** A block on top of a settled chain is accepted with that chain. */
  lemma BlockChain(rules: Rules, db: Db, header: Block, rpc: Rpc)
    requires InStep(rules, db, header.prev, rpc) && Tree(rpc.block) && rpc.block(header.hash) == Some(header)
    ensures ChainOf(rpc.block, header.hash) == Blocks(db.node) + [header]
    ensures (Rebuildable(rules, header.hash, rpc) <==>
             rules.accepts(db.node, header, LinkFor(rules, db.node, header).maturing))
  {
    hide Tree, Rebuild, DiffsOf, LiveTickets, CacheAgrees, LinkFor, Settled;
    SettledIsRebuilt(rules, rpc.value, db);
    StepChain(rules, db, header.prev, rpc);
    InTree(rpc.block, header.hash);
    var chain, n := ChainOf(rpc.block, header.hash), |db.node|;
    assert header.height == n + 1 by {
      ChainIsBranch(rules, db.node, rpc, n, n);
      NotGenesis(rpc.block, header);
    }
    AncestorIsSelf(rpc.block, header.hash);
    forall i | 0 <= i < |chain|
      ensures chain[i] == (Blocks(db.node) + [header])[i]
    {
      if i < n {
        assert AncestorAt(rpc.block, header.hash, i + 1) == AncestorAt(rpc.block, header.prev, i + 1);
        assert ChainOf(rpc.block, header.prev)[i] == Blocks(db.node)[i];
      }
    }
    RebuildSnoc(rules, db.node, header);
    LinkForBlock(rules, db.node, header);
    AcceptedOne(rules, db.node, LinkFor(rules, db.node, header));
  }

  lemma NotGenesis(fetch: Fetch, header: Block)
    requires Tree(fetch) && fetch(header.hash) == Some(header) && fetch(header.prev).Some?
    ensures header.height > 0 && fetch(header.prev).value.height == header.height - 1
  {
    InTree(fetch, header.hash);
  }

  lemma AcceptedOne(rules: Rules, node: Node, link: Link)
    requires Accepted(rules, node)
    ensures Accepted(rules, node + [link]) <==> rules.accepts(node, link.block, link.maturing)
  {
    var next := node + [link];
    if Accepted(rules, next) {
      assert next[..|node|] == node && next[|node|] == link;
      assert rules.accepts(next[..|node|], next[|node|].block, next[|node|].maturing);
    } else if rules.accepts(node, link.block, link.maturing) {
      AcceptedExtended(rules, node, link);
    }
  }

  function ReorgData(msg: Message, found: AncestorResult): Reorg
    requires msg.ReorgMsg? && found.Found?
  {
    Reorg(found.ancestor, found.chainA, msg.newHead, msg.newHeight,
          found.chainB, msg.oldHead, msg.oldHeight)
  }

  /** The data that signalReorg builds for a reorganisation away from the tip of a
      settled chain is what the monitor's switch needs. */
  lemma GenuineReorgFits(rules: Rules, db: Db, msg: Message, rpc: Rpc, found: AncestorResult)
    requires Grounded(rules, db.node) && KnowsAll(rules, db.node, rpc)
    requires msg.ReorgMsg? && Genuine(rules.maturity, msg, rpc) && msg.oldHead == TipHash(rules, db.node)
    requires found.Found? && rpc.block(found.ancestor).Some?
    requires
      var c := HeightOf(rpc.block, found.ancestor);
      && MeetAt(rpc.block, msg.newHead, msg.oldHead, c)
      && found.ancestor == AncestorAt(rpc.block, msg.newHead, c)
      && IsBranch(rpc.block, msg.newHead, c, found.chainA)
    ensures ReorgFits(rules, db, ReorgData(msg, found), rpc)
    ensures found.chainA != [] && found.chainA[|found.chainA| - 1] == msg.newHead
    ensures
      var c := HeightOf(rpc.block, found.ancestor);
      ReorgData(msg, found).AncestorHeight() == c <= |db.node|
      && Blocks(db.node)[..c] + Fetched(found.chainA, rpc) == ChainOf(rpc.block, msg.newHead)
  {
    hide Tree, AncestorAt, Grounded;
    var node := db.node;
    var n, c := |node|, HeightOf(rpc.block, found.ancestor);
    ChainIsBranch(rules, node, rpc, n, n);
    ChainIsBranch(rules, node, rpc, n, c);
    BranchIsLinked(rpc.block, msg.newHead, c, found.chainA);
    BranchLinks(rpc, msg.newHead, c, found.chainA, 0);
    assert found.chainA[0..] == found.chainA;
    assert MainServes(rules.maturity, rpc, msg.newHead, c);
    forall m: nat | m <= c < m + rules.maturity <= c + |found.chainA|
      ensures ServedAt(rules, node[..c], db.blocks, rpc, m)
    {
      ChainIsBranch(rules, node, rpc, n, m);
      SharedBelow(rpc.block, msg.newHead, msg.oldHead, c, m);
      assert Knows(rules, node, m, rpc);
      assert rpc.main(m) == Some(AncestorAt(rpc.block, msg.newHead, m));
      assert BlockAt(rules, node[..c], m) == BlockAt(rules, node, m);
    }
    ReorgChain(rules, node, msg.newHead, msg.oldHead, c, found.chainA, rpc);
  }

  /** Below the ancestor the new branch is the settled chain, above it the fetched one. */
  lemma ReorgChain(rules: Rules, node: Node, newHead: Hash, oldHead: Hash, c: nat, chain: seq<Hash>, rpc: Rpc)
    requires Grounded(rules, node) && KnowsAll(rules, node, rpc) && Tree(rpc.block)
    requires oldHead == TipHash(rules, node) && c <= |node|
    requires rpc.block(newHead).Some? && c <= HeightOf(rpc.block, newHead)
    requires rpc.block(oldHead).Some? && c <= HeightOf(rpc.block, oldHead)
    requires AncestorAt(rpc.block, newHead, c) == AncestorAt(rpc.block, oldHead, c)
    requires IsBranch(rpc.block, newHead, c, chain)
    requires LinkedFrom(BlockAt(rules, node, c).hash, c, chain, rpc)
    ensures Blocks(node)[..c] + Fetched(chain, rpc) == ChainOf(rpc.block, newHead)
  {
    hide Tree, AncestorAt, Grounded;
    LinkedAreFetched(BlockAt(rules, node, c).hash, c, chain, rpc);
    var target, whole := Blocks(node)[..c] + Fetched(chain, rpc), ChainOf(rpc.block, newHead);
    forall i | 0 <= i < |whole|
      ensures target[i] == whole[i]
    {
      if i < c {
        ChainIsBranch(rules, node, rpc, |node|, i + 1);
        SharedBelow(rpc.block, newHead, oldHead, c, i + 1);
        assert Knows(rules, node, i + 1, rpc);
      } else {
        assert chain[i - c] == AncestorAt(rpc.block, newHead, c + 1 + (i - c));
      }
    }
  }

  // ------------------------------------------------------------------------
  // The notifier object, with the stake database's monitor as its handler
  // ------------------------------------------------------------------------

  /** Between messages: the database is settled on a chain that the RPC knows and
      whose tip is the block recorded as the previous one. */
  ghost predicate InStep(rules: Rules, db: Db, previous: Hash, rpc: Rpc) {
    && Settled(rules, rpc.value, db)
    && KnowsAll(rules, db.node, rpc)
    && previous == TipHash(rules, db.node)
  }

  /** The branches of a reorganisation can be found: they meet within the length limit. */
  ghost predicate BranchesMeet(msg: Message, rpc: Rpc)
    requires msg.ReorgMsg?
  {
    Tree(rpc.block) && rpc.block(msg.newHead).Some? && rpc.block(msg.oldHead).Some?
    && exists c :: MeetAt(rpc.block, msg.newHead, msg.oldHead, c)
                   && Max(HeightOf(rpc.block, msg.newHead), HeightOf(rpc.block, msg.oldHead)) - c
                      <= MAX_ANCESTOR_CHAIN_LENGTH
  }

  /** The previous block after a message: a block counts when it connects, and a
      reorganisation when its branches can be found. */
  ghost function Track(previous: Hash, msg: Message, rpc: Rpc): Hash {
    match msg
    case BlockMsg(header) => if header.prev == previous then header.hash else previous
    case ReorgMsg(_, _, newHead, _) => if BranchesMeet(msg, rpc) then newHead else previous
    case _ => previous
  }

  ghost function TrackAll(previous: Hash, msgs: seq<Message>, rpcs: seq<Rpc>): Hash
    requires |msgs| == |rpcs|
    decreases |msgs|
  {
    if msgs == [] then previous
    else TrackAll(Track(previous, msgs[0], rpcs[0]), msgs[1..], rpcs[1..])
  }

  /** After each message the stake node accepts the whole branch of the block then
      recorded as previous. */
  ghost predicate AllRebuildable(rules: Rules, previous: Hash, msgs: seq<Message>, rpcs: seq<Rpc>)
    requires |msgs| == |rpcs|
    decreases |msgs|
  {
    msgs == []
    || (&& Rebuildable(rules, Track(previous, msgs[0], rpcs[0]), rpcs[0])
        && AllRebuildable(rules, Track(previous, msgs[0], rpcs[0]), msgs[1..], rpcs[1..]))
  }

  /** The RPC forgets no block and changes no amount. */
  ghost predicate Grows(before: Rpc, after: Rpc) {
    && after.value == before.value
    && forall h: Hash :: before.block(h).Some? ==> after.block(h) == before.block(h)
  }

  /** A queue of genuine messages, each served with the RPC of its time, in which
      every reorganisation leads away from the block then recorded as previous. */
  ghost predicate GenuineRun(maturity: nat, previous: Hash, msgs: seq<Message>, rpcs: seq<Rpc>)
    requires |msgs| == |rpcs|
    decreases |msgs|
  {
    msgs == []
    || (&& Genuine(maturity, msgs[0], rpcs[0])
        && (msgs[0].ReorgMsg? ==> msgs[0].oldHead == previous)
        && (|rpcs| > 1 ==> Grows(rpcs[0], rpcs[1]))
        && GenuineRun(maturity, Track(previous, msgs[0], rpcs[0]), msgs[1..], rpcs[1..]))
  }

  lemma InStepGrows(rules: Rules, db: Db, previous: Hash, before: Rpc, after: Rpc)
    requires InStep(rules, db, previous, before) && Grows(before, after)
    ensures InStep(rules, db, previous, after)
  {
    hide Settled;
    forall h | 0 <= h <= |db.node|
      ensures Knows(rules, db.node, h, after)
    {
      assert Knows(rules, db.node, h, before);
    }
  }

  /** The stake database stays in step over a block that connects exactly when the
      stake node accepts it: the previous block moves on either way. */
  lemma BlockKeepsStep(rules: Rules, db: Db, header: Block, rpc: Rpc)
    requires InStep(rules, db, header.prev, rpc) && Genuine(rules.maturity, BlockMsg(header), rpc)
    ensures
      var (r, next) := Connect(rules, db, header, rpc);
      var accepted := rules.accepts(db.node, header, LinkFor(rules, db.node, header).maturing);
      && r == (if accepted then Done else Failed)
      && Settled(rules, rpc.value, next)
      && (InStep(rules, next, header.hash, rpc) <==> accepted)
      && (accepted <==> Rebuildable(rules, header.hash, rpc))
  {
    hide Settled, Connect, Accepted, LinkFor, Served, Rebuildable, ChainOf;
    BlockChain(rules, db, header, rpc);
    GenuineBlockExtends(rules, db, header, rpc);
    ConnectSettles(rules, db, header, 1, rpc);
    LinkForBlock(rules, db.node, header);
    var (r, next) := Connect(rules, db, header, rpc);
    assert Knows(rules, db.node, |db.node|, rpc);
    if r == Done {
      forall h | 0 <= h <= |next.node|
        ensures Knows(rules, next.node, h, rpc)
      {
        if h <= |db.node| {
          assert Knows(rules, db.node, h, rpc);
        }
      }
    }
  }

  /** The stake database stays in step over a reorganisation exactly when the stake node
      accepts the ancestor's chain with the whole new chain on top. */
  lemma ReorgKeepsStep(rules: Rules, db: Db, reorg: Reorg, previous: Hash, rpc: Rpc)
    requires InStep(rules, db, previous, rpc) && LotterySound(rules)
    requires ReorgFits(rules, db, reorg, rpc)
    requires reorg.newHead == reorg.newChain[|reorg.newChain| - 1]
    ensures
      var (r, next) := Switch(rules, db, reorg, rpc);
      var target := Blocks(db.node)[..reorg.AncestorHeight()] + Fetched(reorg.newChain, rpc);
      && (r.Switched? || r.Stopped?)
      && Settled(rules, rpc.value, next)
      && (r.Switched? <==> Accepted(rules, Rebuild(rules, target)))
      && (InStep(rules, next, reorg.newHead, rpc) <==> Accepted(rules, Rebuild(rules, target)))
  {
    hide Settled, Switch, LotterySound, Accepted, Rebuild, Served, Blocks;
    SwitchRebuilds(rules, db, reorg, rpc);
    var (r, next) := Switch(rules, db, reorg, rpc);
    var a := reorg.AncestorHeight();
    var fetched := Fetched(reorg.newChain, rpc);
    LinkedAreFetched(BlockAt(rules, db.node, a).hash, a, reorg.newChain, rpc);
    var target := Blocks(db.node)[..a] + fetched;
    forall h | 0 <= h <= |next.node|
      ensures Knows(rules, next.node, h, rpc)
    {
      SwitchedBlockKnown(rules, db.node, next.node, a, reorg.newChain, h, rpc);
    }
    // The new head is a block of its own height, which a switch that stops is below.
    assert Knows(rules, next.node, |next.node|, rpc);
    assert rpc.block(reorg.newHead) == Some(fetched[|fetched| - 1]);
    TipHeight(rules, rpc.value, next);
  }

  lemma SwitchedBlockKnown(rules: Rules, node: Node, next: Node, a: nat, newChain: seq<Hash>, h: nat, rpc: Rpc)
    requires a <= |node| && h <= |next| && KnowsAll(rules, node, rpc)
    requires LinkedFrom(BlockAt(rules, node, a).hash, a, newChain, rpc)
    requires a <= |next| <= a + |Fetched(newChain, rpc)|
    requires Blocks(next) == (Blocks(node)[..a] + Fetched(newChain, rpc))[..|next|]
    ensures Knows(rules, next, h, rpc)
  {
    LinkedAreFetched(BlockAt(rules, node, a).hash, a, newChain, rpc);
    var target := Blocks(node)[..a] + Fetched(newChain, rpc);
    if h == 0 {
      assert Knows(rules, node, 0, rpc);
    } else {
      assert next[h - 1].block == Blocks(next)[h - 1] == target[h - 1];
      if h <= a {
        assert Knows(rules, node, h, rpc);
      } else {
        assert target[h - 1] == Fetched(newChain, rpc)[h - 1 - a];
        assert rpc.block(newChain[h - 1 - a]) == Some(target[h - 1]);
      }
    }
  }

  class Notifier {
    const monitor: ChainMonitor
    var previousHash: Hash
    var previousHeight: int
    var handlerErrors: nat  // errors that handlers returned, which are only logged

    constructor (monitor: ChainMonitor)
      ensures this.monitor == monitor && handlerErrors == 0
    {
      this.monitor := monitor;
      previousHash, previousHeight, handlerErrors := ZERO_HASH, 0, 0;
    }

    method SetPreviousBlock(hash: Hash, height: int)
      modifies `previousHash, `previousHeight
      ensures previousHash == hash && previousHeight == height
    {
      previousHash, previousHeight := hash, height;
    }

    /** What serving one message does to a database that was in step. */
    twostate predicate ServedOne(msg: Message, rpc: Rpc, alive: bool)
      reads this, monitor.db, monitor.db.PoolDB
    {
      && alive
      && previousHash == Track(old(previousHash), msg, rpc)
      && Settled(monitor.db.rules, rpc.value, monitor.db.View())
      && (handlerErrors == old(handlerErrors)
          <==> InStep(monitor.db.rules, monitor.db.View(), previousHash, rpc))
      && (handlerErrors == old(handlerErrors) <==> Rebuildable(monitor.db.rules, previousHash, rpc))
    }

    /** processBlock; a handler's panic ends the program. */
    method ProcessBlock(header: Block, rpc: Rpc) returns (alive: bool)
      requires monitor.db.Valid() && monitor.db.PoolDB.tip < MAX_INT64
      modifies this, monitor.db, monitor.db.PoolDB
      ensures monitor.db.Valid() && monitor.db.PoolDB.tip <= old(monitor.db.PoolDB.tip) + 1
      ensures handlerErrors >= old(handlerErrors)
      ensures header.prev != old(previousHash) ==>
        alive && unchanged(this) && monitor.db.View() == old(monitor.db.View())
      ensures header.prev == old(previousHash) && alive ==>
        previousHash == header.hash && previousHeight == header.height
      ensures header.prev == old(previousHash) ==>
        var (r, next) := match rpc.block(header.hash)
                         case None => (Failed, old(monitor.db.View()))
                         case Some(b) => Connect(monitor.db.rules, old(monitor.db.View()), b, rpc);
        && monitor.db.View() == next
        && (alive <==> r != Panicked)
        && (alive ==> handlerErrors == old(handlerErrors) + if r == Done then 0 else 1)
      ensures
        (old(InStep(monitor.db.rules, monitor.db.View(), previousHash, rpc))
         && Genuine(monitor.db.rules.maturity, BlockMsg(header), rpc))
        ==> ServedOne(BlockMsg(header), rpc, alive)
    {
      hide Connect, InStep, Settled, Genuine, Rebuildable;
      if header.prev != previousHash {
        SettledInStep(monitor.db.rules, monitor.db.View(), previousHash, rpc);
        if Genuine(monitor.db.rules.maturity, BlockMsg(header), rpc) {
          GenuineTree(monitor.db.rules.maturity, BlockMsg(header), rpc);
        }
        return true;
      }
      ghost var rules := monitor.db.rules;
      if InStep(rules, monitor.db.View(), previousHash, rpc) && Genuine(rules.maturity, BlockMsg(header), rpc) {
        BlockKeepsStep(rules, monitor.db.View(), header, rpc);
        GenuineKnown(rules.maturity, header, rpc);
      }
      var h := monitor.ConnectBlock(header.hash, rpc);
      if h == Crash {
        return false;
      }
      if h == Error {
        handlerErrors := handlerErrors + 1;
      }
      SetPreviousBlock(header.hash, header.height);
      alive := true;
    }

    lemma SettledInStep(rules: Rules, db: Db, previous: Hash, rpc: Rpc)
      ensures InStep(rules, db, previous, rpc) ==> Settled(rules, rpc.value, db)
      ensures InStep(rules, db, previous, rpc) && Tree(rpc.block) ==> Rebuildable(rules, previous, rpc)
    {
      if InStep(rules, db, previous, rpc) && Tree(rpc.block) {
        StepChain(rules, db, previous, rpc);
      }
    }

    lemma GenuineKnown(maturity: nat, header: Block, rpc: Rpc)
      requires Genuine(maturity, BlockMsg(header), rpc)
      ensures rpc.block(header.hash) == Some(header)
    {
    }

    /** signalReorg: when the branches cannot be found, the reorganisation is dropped
        and the previous block stays. */
    method SignalReorg(msg: Message, rpc: Rpc) returns (alive: bool)
      requires msg.ReorgMsg?
      requires monitor.db.Valid() && monitor.db.PoolDB.tip + MAX_ANCESTOR_CHAIN_LENGTH <= MAX_INT64
      modifies this, monitor.db, monitor.db.PoolDB
      ensures monitor.db.Valid()
      ensures monitor.db.PoolDB.tip <= old(monitor.db.PoolDB.tip) + MAX_ANCESTOR_CHAIN_LENGTH
      ensures handlerErrors >= old(handlerErrors)
      ensures alive ==>
        || (previousHash == old(previousHash) && previousHeight == old(previousHeight))
        || (previousHash == msg.newHead && previousHeight == msg.newHeight)
      ensures alive && Tree(rpc.block) ==> previousHash == Track(old(previousHash), msg, rpc)
      ensures Tree(rpc.block) && !BranchesMeet(msg, rpc) ==>
        alive && unchanged(this) && unchanged(monitor.db) && unchanged(monitor.db.PoolDB)
      ensures
        (old(InStep(monitor.db.rules, monitor.db.View(), previousHash, rpc))
         && Genuine(monitor.db.rules.maturity, msg, rpc)
         && msg.oldHead == old(previousHash) && LotterySound(monitor.db.rules))
        ==> ServedOne(msg, rpc, alive)
    {
      hide Switch, Settled, LotterySound, Tree, AncestorAt, IsBranch, MainServes, ReorgFits, KnowsAll;
      hide ChainOf, Fetched;
      SettledInStep(monitor.db.rules, monitor.db.View(), previousHash, rpc);
      var found := CommonAncestor(rpc.block, msg.newHead, msg.oldHead);
      if !found.Found? {
        return true;
      }
      var reorg := ReorgData(msg, found);
      var rules := monitor.db.rules;
      if InStep(rules, monitor.db.View(), previousHash, rpc) && Genuine(rules.maturity, msg, rpc)
        && msg.oldHead == previousHash && LotterySound(rules)
      {
        SettledIsRebuilt(rules, rpc.value, monitor.db.View());
        GenuineReorgFits(rules, monitor.db.View(), msg, rpc, found);
        ReorgKeepsStep(rules, monitor.db.View(), reorg, previousHash, rpc);
      }
      var h := monitor.ReorgHandler(reorg, rpc);
      if h == Crash {
        return false;
      }
      if h == Error {
        handlerErrors := handlerErrors + 1;
      }
      SetPreviousBlock(msg.newHead, msg.newHeight);
      alive := true;
    }

    /** superQueue, until the queue runs dry. Over any queue of genuine messages that is
        survived the previous block is the one that the messages lead to, whatever the
        handlers reported. From being in step, unless a handler reported an error, the
        queue is survived and the stake database is settled on exactly the previous
        block's chain: the node, diffs, live tickets and pool value that connecting that
        chain from genesis gives. */
    method SuperQueue(msgs: seq<Message>, rpcs: seq<Rpc>) returns (alive: bool)
      requires |msgs| == |rpcs| && monitor.db.Valid()
      requires monitor.db.PoolDB.tip + |msgs| * MAX_ANCESTOR_CHAIN_LENGTH <= MAX_INT64
      modifies this, monitor.db, monitor.db.PoolDB
      ensures monitor.db.Valid()
      ensures alive && GenuineRun(monitor.db.rules.maturity, old(previousHash), msgs, rpcs) ==>
        previousHash == TrackAll(old(previousHash), msgs, rpcs)
      ensures
        (msgs != [] && LotterySound(monitor.db.rules)
         && old(InStep(monitor.db.rules, monitor.db.View(), previousHash, rpcs[0]))
         && GenuineRun(monitor.db.rules.maturity, old(previousHash), msgs, rpcs)
         && handlerErrors == old(handlerErrors)) ==>
        && alive
        && InStep(monitor.db.rules, monitor.db.View(), previousHash, rpcs[|rpcs| - 1])
      ensures
        (LotterySound(monitor.db.rules)
         && (msgs != [] ==> old(InStep(monitor.db.rules, monitor.db.View(), previousHash, rpcs[0])))
         && GenuineRun(monitor.db.rules.maturity, old(previousHash), msgs, rpcs)) ==>
        (alive && handlerErrors == old(handlerErrors)
         <==> AllRebuildable(monitor.db.rules, old(previousHash), msgs, rpcs))
    {
      hide LotterySound, InStep, Genuine, Track, Settled, Grows, Tree, Rebuildable, GenuineRun, TrackAll,
        AllRebuildable;
      ghost var rules := monitor.db.rules;
      ghost var genuine := GenuineRun(rules.maturity, previousHash, msgs, rpcs);
      ghost var inStep := genuine && msgs != [] && LotterySound(rules)
        && InStep(rules, monitor.db.View(), previousHash, rpcs[0]);
      assert msgs[0..] == msgs && rpcs[0..] == rpcs;
      for i := 0 to |msgs|
        invariant monitor.db.Valid()
        invariant monitor.db.PoolDB.tip + (|msgs| - i) * MAX_ANCESTOR_CHAIN_LENGTH <= MAX_INT64
        invariant handlerErrors >= old(handlerErrors)
        invariant i == 0 ==> previousHash == old(previousHash) && handlerErrors == old(handlerErrors)
        invariant genuine ==>
          && GenuineRun(rules.maturity, previousHash, msgs[i..], rpcs[i..])
          && TrackAll(previousHash, msgs[i..], rpcs[i..]) == TrackAll(old(previousHash), msgs, rpcs)
          && (0 < i < |msgs| ==> Grows(rpcs[i - 1], rpcs[i]))
        invariant inStep && handlerErrors == old(handlerErrors) ==>
          && InStep(rules, monitor.db.View(), previousHash, rpcs[if i == 0 then 0 else i - 1])
          && (AllRebuildable(rules, old(previousHash), msgs, rpcs) <==>
              AllRebuildable(rules, previousHash, msgs[i..], rpcs[i..]))
        invariant inStep && handlerErrors > old(handlerErrors) ==>
          !AllRebuildable(rules, old(previousHash), msgs, rpcs)
      {
        var msg, rpc := msgs[i], rpcs[i];
        NextMessage(rules, previousHash, msgs, rpcs, i);
        if inStep && handlerErrors == old(handlerErrors) {
          if i > 0 {
            InStepGrows(rules, monitor.db.View(), previousHash, rpcs[i - 1], rpc);
          }
          SettledInStep(rules, monitor.db.View(), previousHash, rpc);
        }
        match msg {
          case BlockMsg(header) =>
            alive := ProcessBlock(header, rpc);
          case ReorgMsg(_, _, _, _) =>
            alive := SignalReorg(msg, rpc);
          case _ =>
            alive := true;
        }
        if !alive {
          return false;
        }
      }
      NothingLeft(rules, previousHash, msgs, rpcs);
      alive := true;
    }

    /** What the rest of a queue says about its first message. */
    lemma NextMessage(rules: Rules, previous: Hash, msgs: seq<Message>, rpcs: seq<Rpc>, i: nat)
      requires |msgs| == |rpcs| && i < |msgs|
      ensures
        var next := Track(previous, msgs[i], rpcs[i]);
        && TrackAll(previous, msgs[i..], rpcs[i..]) == TrackAll(next, msgs[i + 1..], rpcs[i + 1..])
        && (AllRebuildable(rules, previous, msgs[i..], rpcs[i..]) <==>
            Rebuildable(rules, next, rpcs[i]) && AllRebuildable(rules, next, msgs[i + 1..], rpcs[i + 1..]))
        && (GenuineRun(rules.maturity, previous, msgs[i..], rpcs[i..]) ==>
              && Genuine(rules.maturity, msgs[i], rpcs[i]) && Tree(rpcs[i].block)
              && (msgs[i].ReorgMsg? ==> msgs[i].oldHead == previous)
              && (i + 1 < |msgs| ==> Grows(rpcs[i], rpcs[i + 1]))
              && GenuineRun(rules.maturity, next, msgs[i + 1..], rpcs[i + 1..]))
      ensures msgs[i].TxMsg? || msgs[i].UnknownMsg? ==> Track(previous, msgs[i], rpcs[i]) == previous
      ensures msgs[i].BlockMsg? ==>
        Track(previous, msgs[i], rpcs[i]) == if msgs[i].header.prev == previous then msgs[i].header.hash else previous
    {
      hide Rebuildable, Tree, Grows, BranchesMeet;
      assert msgs[i..][1..] == msgs[i + 1..] && rpcs[i..][1..] == rpcs[i + 1..];
      if Genuine(rules.maturity, msgs[i], rpcs[i]) {
        GenuineTree(rules.maturity, msgs[i], rpcs[i]);
      }
    }

    lemma NothingLeft(rules: Rules, previous: Hash, msgs: seq<Message>, rpcs: seq<Rpc>)
      requires |msgs| == |rpcs|
      ensures TrackAll(previous, msgs[|msgs|..], rpcs[|rpcs|..]) == previous
      ensures AllRebuildable(rules, previous, msgs[|msgs|..], rpcs[|rpcs|..])
    {
    }

    lemma GenuineTree(maturity: nat, msg: Message, rpc: Rpc)
      requires Genuine(maturity, msg, rpc)
      ensures Tree(rpc.block)
    {
    }
  }
}
