/** CommonAncestor (rpcutils/rpcclient.go): walking two branches of the block tree
    down to where they meet. */
module Ancestry {
  import opened Common
  import opened StakeNodes

  const MAX_ANCESTOR_CHAIN_LENGTH := 8192

  type Fetch = Hash -> Option<Block>

  /** The blocks that can be fetched form one tree: a parent is known and one lower,
      the only block without one is the genesis block, and the zero hash that stands
      for its parent names no block. */
  ghost predicate Tree(fetch: Fetch) {
    && fetch(ZERO_HASH).None?
    && (forall h: Hash :: fetch(h).Some? ==> TreeAt(fetch, h))
    && (forall g, h: Hash ::
          (fetch(g).Some? && fetch(h).Some? && HeightOf(fetch, g) == 0 && HeightOf(fetch, h) == 0) ==>
          g == h)
  }

  ghost predicate TreeAt(fetch: Fetch, h: Hash)
    requires fetch(h).Some?
  {
    var b := fetch(h).value;
    && b.hash == h
    && (b.height == 0 <==> b.prev == ZERO_HASH)
    && (b.height > 0 ==> fetch(b.prev).Some? && fetch(b.prev).value.height == b.height - 1)
  }

  function HeightOf(fetch: Fetch, h: Hash): nat
    requires fetch(h).Some?
  {
    fetch(h).value.height
  }

  /** The ancestor of a block at a height not above its own; a block is its own. */
  ghost function AncestorAt(fetch: Fetch, h: Hash, k: nat): (a: Hash)
    requires Tree(fetch) && fetch(h).Some? && k <= HeightOf(fetch, h)
    ensures fetch(a).Some? && HeightOf(fetch, a) == k
    decreases HeightOf(fetch, h)
  {
    assert TreeAt(fetch, h);
    if HeightOf(fetch, h) == k then h else AncestorAt(fetch, fetch(h).value.prev, k)
  }

  lemma {:induction false} AncestorOfAncestor(fetch: Fetch, h: Hash, k: nat, j: nat)
    requires Tree(fetch) && fetch(h).Some? && j <= k <= HeightOf(fetch, h)
    ensures AncestorAt(fetch, AncestorAt(fetch, h, k), j) == AncestorAt(fetch, h, j)
    decreases HeightOf(fetch, h)
  {
    assert TreeAt(fetch, h);
    if k < HeightOf(fetch, h) {
      AncestorOfAncestor(fetch, fetch(h).value.prev, k, j);
    }
  }

  lemma ParentOfAncestor(fetch: Fetch, h: Hash, k: nat)
    requires Tree(fetch) && fetch(h).Some? && 0 < k <= HeightOf(fetch, h)
    ensures fetch(AncestorAt(fetch, h, k)).value.prev == AncestorAt(fetch, h, k - 1)
  {
    var a := AncestorAt(fetch, h, k);
    assert TreeAt(fetch, a);
    AncestorOfAncestor(fetch, h, k, k - 1);
    assert AncestorAt(fetch, a, k - 1) == AncestorAt(fetch, fetch(a).value.prev, k - 1);
  }

  /** Two branches that share a block share all blocks below it. */
  lemma SharedBelow(fetch: Fetch, a: Hash, b: Hash, k: nat, j: nat)
    requires Tree(fetch) && fetch(a).Some? && fetch(b).Some?
    requires j <= k <= HeightOf(fetch, a) && k <= HeightOf(fetch, b)
    requires AncestorAt(fetch, a, k) == AncestorAt(fetch, b, k)
    ensures AncestorAt(fetch, a, j) == AncestorAt(fetch, b, j)
  {
    AncestorOfAncestor(fetch, a, k, j);
    AncestorOfAncestor(fetch, b, k, j);
  }

  function Min(a: nat, b: nat): nat {
    if a < b then a else b
  }

  function Max(a: nat, b: nat): nat {
    if a < b then b else a
  }

  /** c is the height of the highest block that is a proper ancestor of both tips. */
  ghost predicate MeetAt(fetch: Fetch, a: Hash, b: Hash, c: nat)
    requires Tree(fetch) && fetch(a).Some? && fetch(b).Some?
  {
    var low := Min(HeightOf(fetch, a), HeightOf(fetch, b));
    && c < low
    && AncestorAt(fetch, a, c) == AncestorAt(fetch, b, c)
    && forall k :: c < k < low ==> AncestorAt(fetch, a, k) != AncestorAt(fetch, b, k)
  }

  /** The blocks of a branch above a height, lowest first and up to the tip. */
  ghost predicate IsBranch(fetch: Fetch, tip: Hash, from: nat, chain: seq<Hash>)
    requires Tree(fetch) && fetch(tip).Some? && from <= HeightOf(fetch, tip)
  {
    && |chain| == HeightOf(fetch, tip) - from
    && forall i :: 0 <= i < |chain| ==> chain[i] == AncestorAt(fetch, tip, from + 1 + i)
  }

  /** A walker takes one step: its block joins the branch and its parent is next. */
  lemma BranchDown(fetch: Fetch, tip: Hash, from: nat, chain: seq<Hash>)
    requires Tree(fetch) && fetch(tip).Some? && 0 < from <= HeightOf(fetch, tip)
    requires IsBranch(fetch, tip, from, chain)
    ensures
      var h := AncestorAt(fetch, tip, from);
      var parent := fetch(h).value.prev;
      && parent == AncestorAt(fetch, tip, from - 1)
      && fetch(parent).Some? && HeightOf(fetch, parent) == from - 1
      && IsBranch(fetch, tip, from - 1, [h] + chain)
  {
    hide Tree, AncestorAt;
    ParentOfAncestor(fetch, tip, from);
    var longer := [AncestorAt(fetch, tip, from)] + chain;
    forall i | 0 <= i < |longer|
      ensures longer[i] == AncestorAt(fetch, tip, from - 1 + 1 + i)
    {
      if i > 0 {
        assert longer[i] == chain[i - 1] == AncestorAt(fetch, tip, from + 1 + (i - 1));
      }
    }
  }

  /** A block of a branch is one above the block before it, and its child; the lowest
      is the child of the ancestor. */
  ghost predicate LinkedAt(fetch: Fetch, ancestor: Hash, from: nat, chain: seq<Hash>, i: nat)
    requires i < |chain|
  {
    && fetch(chain[i]).Some?
    && HeightOf(fetch, chain[i]) == from + 1 + i
    && fetch(chain[i]).value.prev == if i == 0 then ancestor else chain[i - 1]
  }

  /** The branches that are found are parent-linked from the ancestor to the tip. */
  lemma BranchIsLinked(fetch: Fetch, tip: Hash, from: nat, chain: seq<Hash>)
    requires Tree(fetch) && fetch(tip).Some? && from < HeightOf(fetch, tip)
    requires IsBranch(fetch, tip, from, chain)
    ensures chain[|chain| - 1] == tip
    ensures forall i :: 0 <= i < |chain| ==>
      LinkedAt(fetch, AncestorAt(fetch, tip, from), from, chain, i)
  {
    AncestorIsSelf(fetch, tip);
    hide Tree, AncestorAt;
    forall i | 0 <= i < |chain|
      ensures LinkedAt(fetch, AncestorAt(fetch, tip, from), from, chain, i)
    {
      assert chain[i] == AncestorAt(fetch, tip, from + 1 + i);
      ParentOfAncestor(fetch, tip, from + 1 + i);
      if i > 0 {
        assert chain[i - 1] == AncestorAt(fetch, tip, from + 1 + (i - 1));
      }
    }
  }

  lemma AncestorIsSelf(fetch: Fetch, h: Hash)
    requires Tree(fetch) && fetch(h).Some?
    ensures AncestorAt(fetch, h, HeightOf(fetch, h)) == h
  {
  }

  lemma OneGenesis(fetch: Fetch, a: Hash, b: Hash)
    requires Tree(fetch) && fetch(a).Some? && fetch(b).Some?
    requires HeightOf(fetch, a) == HeightOf(fetch, b) == 0
    ensures a == b
  {
  }

  lemma InTree(fetch: Fetch, h: Hash)
    requires Tree(fetch) && fetch(h).Some?
    ensures TreeAt(fetch, h)
  {
  }

  /** Two tips above genesis always meet, at the latest at genesis. */
  lemma {:induction false} Meet(fetch: Fetch, a: Hash, b: Hash, h: nat) returns (c: nat)
    requires Tree(fetch) && fetch(a).Some? && fetch(b).Some?
    requires h < HeightOf(fetch, a) && h < HeightOf(fetch, b)
    requires forall k :: h < k < Min(HeightOf(fetch, a), HeightOf(fetch, b)) ==>
      AncestorAt(fetch, a, k) != AncestorAt(fetch, b, k)
    ensures MeetAt(fetch, a, b, c) && c <= h
    decreases h
  {
    hide Tree, AncestorAt;
    if AncestorAt(fetch, a, h) == AncestorAt(fetch, b, h) {
      c := h;
    } else {
      if h == 0 {
        OneGenesis(fetch, AncestorAt(fetch, a, 0), AncestorAt(fetch, b, 0));
      }
      c := Meet(fetch, a, b, h - 1);
    }
  }

  datatype AncestorResult =
    | Found(ancestor: Hash, chainA: seq<Hash>, chainB: seq<Hash>)
    | MaxLength
    | AtGenesis(chainA: seq<Hash>, chainB: seq<Hash>)
    | FetchFailed

  /** The invariant of the walk: where the two walkers are, what they have collected,
      and that they have not met above. */
  ghost predicate Walking(fetch: Fetch, tipA: Hash, tipB: Hash,
                          hashA: Hash, hashB: Hash, chainA: seq<Hash>, chainB: seq<Hash>, length: nat)
    requires Tree(fetch) && fetch(tipA).Some? && fetch(tipB).Some?
  {
    var topA, topB := HeightOf(fetch, tipA), HeightOf(fetch, tipB);
    && fetch(hashA).Some? && fetch(hashB).Some?
    && var a, b := HeightOf(fetch, hashA), HeightOf(fetch, hashB);
    && a <= topA && hashA == AncestorAt(fetch, tipA, a) && IsBranch(fetch, tipA, a, chainA)
    && b <= topB && hashB == AncestorAt(fetch, tipB, b) && IsBranch(fetch, tipB, b, chainB)
    && length == Max(topA, topB) - Max(a, b)
    && (a > b ==> b == topB)
    && (b > a ==> a == topA)
    && (a == b ==> a == Min(topA, topB) || hashA != hashB)
  }

  /** Walkers that have not met stand above the height where the branches meet. */
  lemma NotMetYet(fetch: Fetch, tipA: Hash, tipB: Hash, hashA: Hash, hashB: Hash,
                  chainA: seq<Hash>, chainB: seq<Hash>, length: nat, c: nat)
    requires Tree(fetch) && fetch(tipA).Some? && fetch(tipB).Some?
    requires Walking(fetch, tipA, tipB, hashA, hashB, chainA, chainB, length)
    requires MeetAt(fetch, tipA, tipB, c)
    ensures c < Max(HeightOf(fetch, hashA), HeightOf(fetch, hashB))
  {
    var a, b := HeightOf(fetch, hashA), HeightOf(fetch, hashB);
    if a == b && hashA != hashB && c >= a {
      SharedBelow(fetch, tipA, tipB, c, a);
    }
  }

  /** CommonAncestor on the tips of a block tree: it finds the highest block that is
      a proper ancestor of both, with both branches down to it, exactly when that
      block is at most 8192 below the taller tip; it reports genesis exactly when one
      tip is the genesis block and the other less than 8192 high; and it reports too
      long a chain in all other cases. The walk ends on any blocks whatsoever. */
  method CommonAncestor(fetch: Fetch, tipA: Hash, tipB: Hash) returns (r: AncestorResult)
    ensures fetch(tipA).None? || fetch(tipB).None? ==> r == FetchFailed
    ensures Tree(fetch) && fetch(tipA).Some? && fetch(tipB).Some? ==>
      var topA, topB := HeightOf(fetch, tipA), HeightOf(fetch, tipB);
      && (r.Found? <==> exists c :: MeetAt(fetch, tipA, tipB, c)
                                    && Max(topA, topB) - c <= 8192)
      && (r.AtGenesis? <==> Min(topA, topB) == 0 && Max(topA, topB) < 8192)
      && (r.Found? ==>
            && fetch(r.ancestor).Some?
            && var c := HeightOf(fetch, r.ancestor);
            && MeetAt(fetch, tipA, tipB, c)
            && r.ancestor == AncestorAt(fetch, tipA, c)
            && IsBranch(fetch, tipA, c, r.chainA) && IsBranch(fetch, tipB, c, r.chainB))
      && !r.FetchFailed?
    ensures r.Found? ==>
      |r.chainA| <= 8192 && |r.chainB| <= 8192
  {
    hide Tree, AncestorAt, IsBranch;
    var hashA, hashB := tipA, tipB;
    var chainA: seq<Hash>, chainB: seq<Hash> := [], [];
    var length := 0;
    ghost var tree := Tree(fetch) && fetch(tipA).Some? && fetch(tipB).Some?;
    if tree {
      StartWalking(fetch, tipA, tipB);
    }
    while true
      invariant length <= MAX_ANCESTOR_CHAIN_LENGTH && |chainA| <= length && |chainB| <= length
      invariant if length == 0 then hashA == tipA && hashB == tipB
                else fetch(tipA).Some? && fetch(tipB).Some?
      invariant tree ==> Walking(fetch, tipA, tipB, hashA, hashB, chainA, chainB, length)
      decreases MAX_ANCESTOR_CHAIN_LENGTH - length
    {
      if length >= MAX_ANCESTOR_CHAIN_LENGTH {
        if tree {
          ProveTooLong(fetch, tipA, tipB, hashA, hashB, chainA, chainB, length);
        }
        return MaxLength;
      }
      var blockA := fetch(hashA);
      if blockA.None? {
        return FetchFailed;
      }
      var heightA := blockA.value.height;
      var blockB := fetch(hashB);
      if blockB.None? {
        return FetchFailed;
      }
      var heightB := blockB.value.height;
      if tree {
        StepDown(fetch, tipA, tipB, hashA, hashB, chainA, chainB, length);
      }
      if heightA > heightB {
        chainA := [hashA] + chainA;
        length := length + 1;
        hashA := blockA.value.prev;
        continue;
      }
      if heightB > heightA {
        chainB := [hashB] + chainB;
        length := length + 1;
        hashB := blockB.value.prev;
        continue;
      }
      chainA := [hashA] + chainA;
      chainB := [hashB] + chainB;
      length := length + 1;
      if blockA.value.prev == ZERO_HASH {
        return AtGenesis(chainA, chainB);
      }
      hashA := blockA.value.prev;
      hashB := blockB.value.prev;
      if hashA == hashB {
        break;
      }
    }
    r := Found(hashA, chainA, chainB);
  }

  lemma StartWalking(fetch: Fetch, tipA: Hash, tipB: Hash)
    requires Tree(fetch) && fetch(tipA).Some? && fetch(tipB).Some?
    ensures Walking(fetch, tipA, tipB, tipA, tipB, [], [], 0)
  {
  }

  lemma ProveTooLong(fetch: Fetch, tipA: Hash, tipB: Hash, hashA: Hash, hashB: Hash,
                     chainA: seq<Hash>, chainB: seq<Hash>, length: nat)
    requires Tree(fetch) && fetch(tipA).Some? && fetch(tipB).Some?
    requires Walking(fetch, tipA, tipB, hashA, hashB, chainA, chainB, length)
    requires length == MAX_ANCESTOR_CHAIN_LENGTH
    ensures Max(HeightOf(fetch, tipA), HeightOf(fetch, tipB)) >= MAX_ANCESTOR_CHAIN_LENGTH
    ensures forall c :: MeetAt(fetch, tipA, tipB, c) ==>
      Max(HeightOf(fetch, tipA), HeightOf(fetch, tipB)) - c > MAX_ANCESTOR_CHAIN_LENGTH
  {
    forall c | MeetAt(fetch, tipA, tipB, c)
      ensures Max(HeightOf(fetch, tipA), HeightOf(fetch, tipB)) - c > MAX_ANCESTOR_CHAIN_LENGTH
    {
      NotMetYet(fetch, tipA, tipB, hashA, hashB, chainA, chainB, length, c);
    }
  }

  /** One round of the walk, in each of its branches. */
  lemma StepDown(fetch: Fetch, tipA: Hash, tipB: Hash, hashA: Hash, hashB: Hash,
                 chainA: seq<Hash>, chainB: seq<Hash>, length: nat)
    requires Tree(fetch) && fetch(tipA).Some? && fetch(tipB).Some?
    requires Walking(fetch, tipA, tipB, hashA, hashB, chainA, chainB, length)
    ensures
      var a, b := fetch(hashA).value, fetch(hashB).value;
      var topA, topB := HeightOf(fetch, tipA), HeightOf(fetch, tipB);
      && (a.height > b.height ==>
            Walking(fetch, tipA, tipB, a.prev, hashB, [hashA] + chainA, chainB, length + 1))
      && (b.height > a.height ==>
            Walking(fetch, tipA, tipB, hashA, b.prev, chainA, [hashB] + chainB, length + 1))
      && (a.height == b.height && a.prev == ZERO_HASH ==> Min(topA, topB) == 0 && length == Max(topA, topB))
      && (a.height == b.height && a.prev != ZERO_HASH ==>
            StepBoth(fetch, tipA, tipB, a.prev, b.prev, [hashA] + chainA, [hashB] + chainB, length + 1))
  {
    hide Tree, AncestorAt, IsBranch, MeetAt;
    var a, b := fetch(hashA).value, fetch(hashB).value;
    InTree(fetch, hashA);
    InTree(fetch, hashB);
    if a.height > b.height {
      BranchDown(fetch, tipA, a.height, chainA);
    } else if b.height > a.height {
      BranchDown(fetch, tipB, b.height, chainB);
    } else if a.height > 0 {
      BranchDown(fetch, tipA, a.height, chainA);
      BranchDown(fetch, tipB, b.height, chainB);
      if a.prev == b.prev {
        MeetBelow(fetch, tipA, tipB, a.height);
      }
    } else {
      OneGenesis(fetch, hashA, hashB);
    }
  }

  /** The walkers step down together: they have met, or walk on. */
  ghost predicate StepBoth(fetch: Fetch, tipA: Hash, tipB: Hash, hashA: Hash, hashB: Hash,
                           chainA: seq<Hash>, chainB: seq<Hash>, length: nat)
    requires Tree(fetch) && fetch(tipA).Some? && fetch(tipB).Some?
  {
    if hashA != hashB then Walking(fetch, tipA, tipB, hashA, hashB, chainA, chainB, length)
    else
      && fetch(hashA).Some?
      && var c := HeightOf(fetch, hashA);
      && MeetAt(fetch, tipA, tipB, c)
      && hashA == AncestorAt(fetch, tipA, c)
      && IsBranch(fetch, tipA, c, chainA) && IsBranch(fetch, tipB, c, chainB)
      && Max(HeightOf(fetch, tipA), HeightOf(fetch, tipB)) - c == length
  }

  lemma MeetBelow(fetch: Fetch, tipA: Hash, tipB: Hash, h: nat)
    requires Tree(fetch) && fetch(tipA).Some? && fetch(tipB).Some?
    requires 0 < h <= Min(HeightOf(fetch, tipA), HeightOf(fetch, tipB))
    requires h == Min(HeightOf(fetch, tipA), HeightOf(fetch, tipB))
          || AncestorAt(fetch, tipA, h) != AncestorAt(fetch, tipB, h)
    requires AncestorAt(fetch, tipA, h - 1) == AncestorAt(fetch, tipB, h - 1)
    ensures MeetAt(fetch, tipA, tipB, h - 1)
  {
    hide Tree, AncestorAt;
    forall k | h - 1 < k < Min(HeightOf(fetch, tipA), HeightOf(fetch, tipB))
      ensures AncestorAt(fetch, tipA, k) != AncestorAt(fetch, tipB, k)
    {
      if AncestorAt(fetch, tipA, k) == AncestorAt(fetch, tipB, k) {
        SharedBelow(fetch, tipA, tipB, k, h);
      }
    }
  }
}
