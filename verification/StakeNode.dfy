/** The stake node of dcrd as an abstract value: the list of blocks connected above
    genesis, each with the tickets that were handed over as maturing when it was
    connected. Which tickets win and expire is a function of that list, connecting
    a block appends to it and disconnecting one takes it off again. Everything the
    stake database keeps is stated here as a function of the node. */
module StakeNodes {
  import opened Common
  import opened PoolDiffs

  /** A block with the tickets bought in it. */
  datatype Block = Block(hash: Hash, prev: Hash, height: nat, tickets: seq<Hash>)

  datatype Link = Link(block: Block, maturing: seq<Hash>)

  type Node = seq<Link>

  /** Network parameters and the ticket lottery. */
  datatype Rules = Rules(
    genesis: Block,
    maturity: nat,
    winners: Node -> seq<Hash>,
    expired: Node -> seq<Hash>,
    accepts: (Node, Block, seq<Hash>) -> bool)

  /** The node RPC while one call is served: blocks by hash, hashes by main chain
      height, and the amounts that tickets lock up. */
  datatype Rpc = Rpc(
    block: Hash -> Option<Block>,
    main: int -> Option<Hash>,
    value: Hash -> Option<int>)
  {
    /** rpcutils.GetBlock. */
    function BlockAtHeight(height: int): Option<Block> {
      match main(height)
      case None => None
      case Some(hash) => block(hash)
    }
  }

  function BlockAt(rules: Rules, node: Node, h: nat): Block
    requires h <= |node|
  {
    if h == 0 then rules.genesis else node[h - 1].block
  }

  function TipHash(rules: Rules, node: Node): Hash {
    BlockAt(rules, node, |node|).hash
  }

  /** The tickets entering and leaving the live pool at a height: those maturing,
      and the winners called by the parent node followed by those expired by the
      block itself. */
  function DiffAt(rules: Rules, node: Node, i: nat): PoolDiff
    requires i < |node|
  {
    PoolDiff(node[i].maturing, rules.winners(node[..i]) + rules.expired(node[..i + 1]))
  }

  function DiffsOf(rules: Rules, node: Node): (diffs: seq<PoolDiff>)
    ensures |diffs| == |node|
  {
    seq(|node|, i requires 0 <= i < |node| => DiffAt(rules, node, i))
  }

  /** The tickets live at the node. */
  function LiveTickets(rules: Rules, node: Node): set<Hash> {
    PoolAt(DiffsOf(rules, node), |node|)
  }

  lemma DiffsOfPrefix(rules: Rules, node: Node, n: nat)
    requires n <= |node|
    ensures DiffsOf(rules, node[..n]) == DiffsOf(rules, node)[..n]
  {
    forall i | 0 <= i < n
      ensures DiffAt(rules, node[..n], i) == DiffAt(rules, node, i)
    {
      assert node[..n][..i] == node[..i];
      assert node[..n][..i + 1] == node[..i + 1];
    }
  }

  lemma DiffsOfExtended(rules: Rules, node: Node, link: Link)
    ensures
      var next := node + [link];
      DiffsOf(rules, next) == DiffsOf(rules, node) + [DiffAt(rules, next, |node|)]
  {
    var next := node + [link];
    assert next[..|node|] == node;
    DiffsOfPrefix(rules, next, |node|);
    assert DiffsOf(rules, next) == DiffsOf(rules, next)[..|node|] + [DiffAt(rules, next, |node|)];
  }

  /** The live tickets of the next node: those of this one with the maturing ones,
      without the winners and the expired ones. */
  lemma LiveExtended(rules: Rules, node: Node, link: Link)
    ensures
      var next := node + [link];
      && LiveTickets(rules, next) == Apply(LiveTickets(rules, node), DiffAt(rules, next, |node|))
      && LiveTickets(rules, next)
         == (LiveTickets(rules, node) + Elems(link.maturing)) - Elems(rules.winners(node)) - Elems(rules.expired(next))
  {
    hide PoolAt;
    var next := node + [link];
    DiffsOfExtended(rules, node, link);
    PoolAtPrefix(DiffsOf(rules, node), DiffsOf(rules, next), |node|);
    assert PoolAt(DiffsOf(rules, next), |node| + 1)
        == Apply(PoolAt(DiffsOf(rules, next), |node|), DiffAt(rules, next, |node|)) by {
      PoolAtNext(DiffsOf(rules, next), |node|);
    }
    assert next[..|node|] == node && next[..|node| + 1] == next;
    ElemsConcat(rules.winners(node), rules.expired(next));
  }

  /** At genesis no ticket is live. */
  lemma LiveAtGenesis(rules: Rules)
    ensures LiveTickets(rules, []) == {}
  {
  }

  /** Every block of the node was accepted when it was connected. */
  ghost predicate Accepted(rules: Rules, node: Node) {
    forall i :: 0 <= i < |node| ==> rules.accepts(node[..i], node[i].block, node[i].maturing)
  }

  lemma AcceptedPrefix(rules: Rules, node: Node, n: nat)
    requires n <= |node| && Accepted(rules, node)
    ensures Accepted(rules, node[..n])
  {
    forall i | 0 <= i < n
      ensures rules.accepts(node[..n][..i], node[..n][i].block, node[..n][i].maturing)
    {
      assert node[..n][..i] == node[..i];
    }
  }

  lemma AcceptedExtended(rules: Rules, node: Node, link: Link)
    requires Accepted(rules, node) && rules.accepts(node, link.block, link.maturing)
    ensures Accepted(rules, node + [link])
  {
    var next := node + [link];
    forall i | 0 <= i < |next|
      ensures rules.accepts(next[..i], next[i].block, next[i].maturing)
    {
      assert next[..i] == if i == |node| then node else node[..i];
    }
  }

  /** What is assumed of dcrd: the node accepts a block only with new and distinct
      maturing tickets, and lets only distinct live tickets win or expire. */
  ghost predicate LotterySound(rules: Rules) {
    forall node: Node :: node != [] && Accepted(rules, node) ==>
      WellFormed(LiveTickets(rules, node[..|node| - 1]), DiffAt(rules, node, |node| - 1))
  }

  lemma AcceptedIsSound(rules: Rules, node: Node)
    requires LotterySound(rules) && Accepted(rules, node)
    ensures SoundTo(DiffsOf(rules, node), |node|)
  {
    hide WellFormed, Apply, Accepted, PoolAt;
    var diffs := DiffsOf(rules, node);
    forall i | 0 <= i < |node|
      ensures WellFormed(PoolAt(diffs, i), diffs[i])
    {
      AcceptedPrefix(rules, node, i + 1);
      PrefixDiff(rules, node, i);
    }
  }

  /** The pool and the diff at a height are those of the shorter node. */
  lemma PrefixDiff(rules: Rules, node: Node, i: nat)
    requires i < |node|
    ensures
      var upTo := node[..i + 1];
      && LiveTickets(rules, upTo[..|upTo| - 1]) == PoolAt(DiffsOf(rules, node), i)
      && DiffAt(rules, upTo, |upTo| - 1) == DiffsOf(rules, node)[i]
  {
    hide Apply, PoolAt;
    var upTo, diffs := node[..i + 1], DiffsOf(rules, node);
    assert upTo[..i] == node[..i] && upTo[..i + 1] == node[..i + 1];
    DiffsOfPrefix(rules, node, i);
    assert DiffsOf(rules, node[..i])[..i] == diffs[..i];
    PoolAtPrefix(DiffsOf(rules, node[..i]), diffs, i);
  }

  // ------------------------------------------------------------------------
  // Nodes that follow from their blocks alone
  // ------------------------------------------------------------------------

  /** The tickets that mature at a height of the chain. */
  function MaturingAt(rules: Rules, node: Node, h: nat): seq<Hash>
    requires h <= |node|
  {
    if h < rules.maturity then [] else BlockAt(rules, node, h - rules.maturity).tickets
  }

  /** The blocks form a chain on genesis, and each was connected with the tickets
      that mature on that same chain. */
  ghost predicate Grounded(rules: Rules, node: Node) {
    && rules.genesis.height == 0
    && rules.maturity >= 1
    && forall h :: 1 <= h <= |node| ==> GroundedAt(rules, node, h)
  }

  ghost predicate GroundedAt(rules: Rules, node: Node, h: nat)
    requires 1 <= h <= |node|
  {
    && node[h - 1].block.height == h
    && node[h - 1].block.prev == BlockAt(rules, node, h - 1).hash
    && node[h - 1].maturing == MaturingAt(rules, node, h)
  }

  /** On a grounded chain each block is the child of the one before, one higher, and is
      given the tickets of the block that is the maturity below it, if there is one. */
  lemma GroundedMeans(rules: Rules, node: Node, h: nat)
    requires Grounded(rules, node) && 1 <= h <= |node|
    ensures rules.genesis.height == 0 && node[h - 1].block.height == h
    ensures node[h - 1].block.prev == if h == 1 then rules.genesis.hash else node[h - 2].block.hash
    ensures node[h - 1].maturing ==
      if h < rules.maturity then []
      else if h == rules.maturity then rules.genesis.tickets
      else node[h - rules.maturity - 1].block.tickets
  {
    assert GroundedAt(rules, node, h);
  }

  lemma GroundedPrefix(rules: Rules, node: Node, n: nat)
    requires n <= |node| && Grounded(rules, node)
    ensures Grounded(rules, node[..n])
  {
    forall h | 1 <= h <= n
      ensures GroundedAt(rules, node[..n], h)
    {
      assert GroundedAt(rules, node, h);
    }
  }

  lemma GroundedExtended(rules: Rules, node: Node, link: Link)
    requires Grounded(rules, node)
    requires link.block.height == |node| + 1 && link.block.prev == TipHash(rules, node)
    requires link.maturing == MaturingAt(rules, node + [link], |node| + 1)
    ensures Grounded(rules, node + [link])
  {
    var next := node + [link];
    forall h | 1 <= h <= |next|
      ensures GroundedAt(rules, next, h)
    {
      if h <= |node| {
        assert GroundedAt(rules, node, h);
      }
    }
  }

  function Blocks(node: Node): (blocks: seq<Block>)
    ensures |blocks| == |node|
  {
    seq(|node|, i requires 0 <= i < |node| => node[i].block)
  }

  /** The node that connecting a chain of blocks from genesis produces. */
  function Rebuild(rules: Rules, blocks: seq<Block>): (node: Node)
    ensures |node| == |blocks|
  {
    seq(|blocks|, i requires 0 <= i < |blocks| => Link(blocks[i], MaturingOf(rules, blocks, i + 1)))
  }

  function MaturingOf(rules: Rules, blocks: seq<Block>, h: nat): seq<Hash>
    requires h <= |blocks|
  {
    if h < rules.maturity then []
    else if h == rules.maturity then rules.genesis.tickets
    else blocks[h - rules.maturity - 1].tickets
  }

  /** Path independence of the node: whatever was connected and disconnected before,
      a grounded node is the one rebuilt from its own chain. */
  lemma GroundedIsRebuilt(rules: Rules, node: Node)
    requires Grounded(rules, node)
    ensures node == Rebuild(rules, Blocks(node))
  {
    var rebuilt := Rebuild(rules, Blocks(node));
    forall i | 0 <= i < |node|
      ensures node[i] == rebuilt[i]
    {
      assert GroundedAt(rules, node, i + 1);
    }
  }

  // ------------------------------------------------------------------------
  // The live ticket cache
  // ------------------------------------------------------------------------

  /** The cache of a pool: every ticket whose amount the RPC knows. */
  function CacheOf(value: Hash -> Option<int>, pool: set<Hash>): map<Hash, int> {
    map t | t in pool && value(t).Some? :: value(t).value
  }

  /** Tickets added to a cache: new ones get their amount where it is known, those
      already there keep theirs. */
  function CacheAdd(cache: map<Hash, int>, tickets: seq<Hash>, value: Hash -> Option<int>): map<Hash, int> {
    cache + map t | t in tickets && t !in cache && value(t).Some? :: value(t).value
  }

  /** What applying a diff makes of a cache. */
  function CacheApply(cache: map<Hash, int>, d: PoolDiff, value: Hash -> Option<int>): map<Hash, int> {
    CacheAdd(cache, d.incoming, value) - Elems(d.outgoing)
  }

  lemma CacheAddNone(cache: map<Hash, int>, value: Hash -> Option<int>)
    ensures CacheAdd(cache, [], value) == cache
  {
  }

  /** Adding one ticket more, in the three ways the source distinguishes. */
  lemma CacheAddSnoc(cache: map<Hash, int>, tickets: seq<Hash>, t: Hash, value: Hash -> Option<int>)
    ensures
      var before := CacheAdd(cache, tickets, value);
      CacheAdd(cache, tickets + [t], value)
      == if t in before || value(t).None? then before else before[t := value(t).value]
  {
  }

  /** With a fixed RPC the cache follows the pool, even where amounts are unknown. */
  lemma CacheFollowsPool(value: Hash -> Option<int>, pool: set<Hash>, d: PoolDiff)
    ensures CacheApply(CacheOf(value, pool), d, value) == CacheOf(value, Apply(pool, d))
  {
  }

  /** diffs[lo..hi] undone from a cache, highest first. */
  function CacheBackward(cache: map<Hash, int>, diffs: seq<PoolDiff>, hi: nat, lo: nat,
                         value: Hash -> Option<int>): map<Hash, int>
    requires lo <= hi <= |diffs|
    decreases hi - lo
  {
    if hi == lo then cache
    else CacheApply(CacheBackward(cache, diffs, hi, lo + 1, value), diffs[lo].Swap(), value)
  }

  ghost function Sum(m: map<Hash, int>): int {
    if m == map[] then 0
    else
      var k :| k in m;
      m[k] + Sum(m - {k})
  }

  lemma SumNone()
    ensures Sum(map[]) == 0
  {
  }

  lemma {:induction false} SumWithout(m: map<Hash, int>, k: Hash)
    requires k in m
    ensures Sum(m) == m[k] + Sum(m - {k})
    decreases |m|
  {
    var pick :| pick in m && Sum(m) == m[pick] + Sum(m - {pick});
    if pick != k {
      SumWithout(m - {pick}, k);
      SumWithout(m - {k}, pick);
      assert m - {pick} - {k} == m - {k} - {pick};
    }
  }

  lemma SumWith(m: map<Hash, int>, k: Hash, v: int)
    requires k !in m
    ensures Sum(m[k := v]) == Sum(m) + v
  {
    SumWithout(m[k := v], k);
    assert m[k := v] - {k} == m;
  }
}
