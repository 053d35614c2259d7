/** The mempool inventory: TxHandler (mempool/monitor.go) keeps up, one transaction at a
    time, what ParseTxns (mempool/collector.go) computes from a whole list. */
module Mempool {
  import opened Common
  import StakeNodes

  datatype TxType = Ticket | Vote | Revocation | Regular

  datatype VoteInfo = VoteInfo(block: Hash, height: int, ticketSpent: Hash)

  /** Amounts are in atoms. A vote whose choices could not be decoded has no VoteInfo. */
  datatype Tx = Tx(hash: Hash, kind: TxType, time: int, size: int, totalOut: int, vote: Option<VoteInfo>)

  datatype BlockID = BlockID(hash: Hash, height: int, time: int)

  datatype LikelyMineable = LikelyMineable(total: int, size: int, count: int, regularTotal: int,
                                           ticketTotal: int, voteTotal: int, revokeTotal: int)

  datatype MempoolShort = MempoolShort(invRegular: set<Hash>, invStake: set<Hash>, numTickets: int, numVotes: int,
                                       numRegular: int, numRevokes: int, totalOut: int, totalSize: int,
                                       votedTickets: set<Hash>, ticketsVoted: int, likely: LikelyMineable)

  const NUM_LATEST_MEMPOOL_TXNS := 5

  // ------------------------------------------------------------------------
  // What an inventory says of the transactions it has taken in
  // ------------------------------------------------------------------------

  /** The sum of f over a list. */
  function Weigh(txs: seq<Tx>, f: Tx -> int): int {
    if txs == [] then 0 else Weigh(txs[..|txs| - 1], f) + f(txs[|txs| - 1])
  }

  function OneAt(kind: TxType, t: Tx): int {
    if t.kind == kind then 1 else 0
  }

  function OutAt(t: Tx): int {
    if Decoded(t) then t.totalOut else 0
  }

  function SizeAt(t: Tx): int {
    if Decoded(t) then t.size else 0
  }

  function OutOfAt(kind: TxType, t: Tx): int {
    if t.kind == kind then OutAt(t) else 0
  }

  function One(kind: TxType): Tx -> int {
    (t: Tx) => OneAt(kind, t)
  }

  function Out(): Tx -> int {
    (t: Tx) => OutAt(t)
  }

  function Size(): Tx -> int {
    (t: Tx) => SizeAt(t)
  }

  function OutOf(kind: TxType): Tx -> int {
    (t: Tx) => OutOfAt(kind, t)
  }

  /** All but the votes without VoteInfo, which no total includes. */
  predicate Decoded(t: Tx) {
    t.kind != Vote || t.vote.Some?
  }

  predicate ForLastBlock(t: Tx, last: BlockID) {
    t.kind == Vote && t.vote.Some? && t.vote.value.block == last.hash
  }

  /** For each ticket that voted on the last block, its first vote. */
  function Cast(txs: seq<Tx>, last: BlockID): map<Hash, Tx> {
    if txs == [] then map[]
    else
      var cast, t := Cast(txs[..|txs| - 1], last), txs[|txs| - 1];
      if ForLastBlock(t, last) && t.vote.value.ticketSpent !in cast then cast[t.vote.value.ticketSpent := t] else cast
  }

  predicate Counts(txs: seq<Tx>, t: Tx, last: BlockID) {
    t.kind != Vote || (ForLastBlock(t, last) && t.vote.value.ticketSpent !in Cast(txs, last))
  }

  /** The likely mineable transactions: no votes on other blocks, and one vote a ticket. */
  function Mineable(txs: seq<Tx>, last: BlockID): seq<Tx> {
    if txs == [] then []
    else
      var init, t := txs[..|txs| - 1], txs[|txs| - 1];
      Mineable(init, last) + if Counts(init, t, last) then [t] else []
  }

  function HashesOf(txs: seq<Tx>, regular: bool): set<Hash> {
    set t | t in txs && (t.kind == Regular) == regular :: t.hash
  }

  function Likely(txs: seq<Tx>, last: BlockID): LikelyMineable {
    var m := Mineable(txs, last);
    LikelyMineable(Weigh(m, Out()), Weigh(m, Size()), |m|, Weigh(m, OutOf(Regular)), Weigh(m, OutOf(Ticket)),
                   Weigh(m, OutOf(Vote)), Weigh(m, OutOf(Revocation)))
  }

  function Summarize(txs: seq<Tx>, last: BlockID): MempoolShort {
    MempoolShort(HashesOf(txs, true), HashesOf(txs, false),
            Weigh(txs, One(Ticket)), Weigh(txs, One(Vote)), Weigh(txs, One(Regular)), Weigh(txs, One(Revocation)),
            Weigh(txs, Out()), Weigh(txs, Size()),
            Cast(txs, last).Keys, |Cast(txs, last)|, Likely(txs, last))
  }

  predicate Known(txs: seq<Tx>, t: Tx) {
    t.hash in HashesOf(txs, t.kind == Regular)
  }

  /** A list without its repeats. */
  function Unique(txs: seq<Tx>): seq<Tx> {
    if txs == [] then []
    else
      var rest, t := Unique(txs[..|txs| - 1]), txs[|txs| - 1];
      if Known(rest, t) then rest else rest + [t]
  }

  // ------------------------------------------------------------------------
  // Totals that the order of the transactions cannot change, and those it can
  // ------------------------------------------------------------------------

  lemma {:induction false} WeighConcat(a: seq<Tx>, b: seq<Tx>, f: Tx -> int)
    ensures Weigh(a + b, f) == Weigh(a, f) + Weigh(b, f)
  {
    if b == [] {
      assert a + b == a;
    } else {
      assert (a + b)[..|a + b| - 1] == a + b[..|b| - 1];
      WeighConcat(a, b[..|b| - 1], f);
    }
  }

  lemma {:induction false} WeighPermutation(a: seq<Tx>, b: seq<Tx>, f: Tx -> int)
    requires multiset(a) == multiset(b)
    ensures Weigh(a, f) == Weigh(b, f)
  {
    if a == [] {
      assert |multiset(b)| == 0;
      assert b == [];
    } else {
      var init, t := a[..|a| - 1], a[|a| - 1];
      assert a == init + [t];
      assert multiset(a) == multiset(init) + multiset{t};
      assert t in multiset(b);
      var front, back := Place(b, t);
      assert multiset(init) == multiset(a) - multiset{t};
      WeighPermutation(init, front + back, f);
      WeighWithout(front, t, back, f);
    }
  }

  lemma WeighWithout(front: seq<Tx>, t: Tx, back: seq<Tx>, f: Tx -> int)
    ensures Weigh(front + ([t] + back), f) == Weigh(front + back, f) + f(t)
  {
    WeighConcat(front, [t] + back, f);
    WeighConcat([t], back, f);
    WeighConcat(front, back, f);
    assert [t][..0] == [];
  }

  /** What is before and after a transaction in a list. */
  lemma Place(txs: seq<Tx>, t: Tx) returns (front: seq<Tx>, back: seq<Tx>)
    requires t in txs
    ensures txs == front + ([t] + back)
    ensures multiset(front + back) == multiset(txs) - multiset{t}
  {
    var i :| 0 <= i < |txs| && txs[i] == t;
    front, back := txs[..i], txs[i + 1..];
    assert txs == front + ([t] + back);
    assert multiset(txs) == multiset(front) + multiset{t} + multiset(back);
  }

  /** LikelyMineable.Total is the sum of its four parts. */
  lemma PartsAddUp(txs: seq<Tx>, last: BlockID)
    ensures var l := Likely(txs, last); l.total == l.regularTotal + l.ticketTotal + l.voteTotal + l.revokeTotal
  {
    KindsAddUp(Mineable(txs, last));
  }

  lemma {:induction false} KindsAddUp(txs: seq<Tx>)
    ensures (Weigh(txs, Out()) == Weigh(txs, OutOf(Regular)) + Weigh(txs, OutOf(Ticket)) + Weigh(txs, OutOf(Vote))
                                  + Weigh(txs, OutOf(Revocation)))
  {
    if txs != [] {
      KindsAddUp(txs[..|txs| - 1]);
    }
  }

  function Outs(cast: map<Hash, Tx>): map<Hash, int> {
    map k | k in cast :: cast[k].totalOut
  }

  function Sizes(cast: map<Hash, Tx>): map<Hash, int> {
    map k | k in cast :: cast[k].size
  }

  function NotVote(f: Tx -> int): Tx -> int {
    (t: Tx) => if t.kind == Vote then 0 else f(t)
  }

  function Unit(): Tx -> int {
    (t: Tx) => 1
  }

  /** What is likely mineable is all but the votes, and one vote for each ticket that
      voted on the last block. */
  lemma {:induction false} MineableIs(txs: seq<Tx>, last: BlockID)
    ensures |Mineable(txs, last)| == Weigh(txs, NotVote(Unit())) + |Cast(txs, last)|
    ensures Weigh(Mineable(txs, last), Size()) == Weigh(txs, NotVote(Size())) + StakeNodes.Sum(Sizes(Cast(txs, last)))
    ensures Weigh(Mineable(txs, last), OutOf(Vote)) == StakeNodes.Sum(Outs(Cast(txs, last)))
  {
    hide StakeNodes.Sum, Outs, Sizes;
    if txs != [] {
      var init, t := txs[..|txs| - 1], txs[|txs| - 1];
      MineableIs(init, last);
      var m, cast := Mineable(init, last), Cast(init, last);
      if Counts(init, t, last) {
        assert (m + [t])[..|m|] == m;
        if t.kind == Vote {
          CastOne(cast, t);
        }
      } else {
        assert m + [] == m;
      }
    } else {
      NoneCast();
    }
  }

  lemma CastOne(cast: map<Hash, Tx>, t: Tx)
    requires t.vote.Some? && t.vote.value.ticketSpent !in cast
    ensures StakeNodes.Sum(Outs(cast[t.vote.value.ticketSpent := t])) == StakeNodes.Sum(Outs(cast)) + t.totalOut
    ensures StakeNodes.Sum(Sizes(cast[t.vote.value.ticketSpent := t])) == StakeNodes.Sum(Sizes(cast)) + t.size
  {
    hide StakeNodes.Sum;
    var k := t.vote.value.ticketSpent;
    assert Outs(cast[k := t]) == Outs(cast)[k := t.totalOut];
    assert Sizes(cast[k := t]) == Sizes(cast)[k := t.size];
    StakeNodes.SumWith(Outs(cast), k, t.totalOut);
    StakeNodes.SumWith(Sizes(cast), k, t.size);
  }

  lemma NoneCast()
    ensures StakeNodes.Sum(Outs(map[])) == 0 && StakeNodes.Sum(Sizes(map[])) == 0
  {
    assert Outs(map[]) == map[] && Sizes(map[]) == map[];
    StakeNodes.SumNone();
  }

  lemma {:induction false} OthersAllCount(txs: seq<Tx>, kind: TxType, last: BlockID)
    requires kind != Vote
    ensures Weigh(Mineable(txs, last), OutOf(kind)) == Weigh(txs, OutOf(kind))
  {
    hide Cast;
    if txs != [] {
      var init, t := txs[..|txs| - 1], txs[|txs| - 1];
      OthersAllCount(init, kind, last);
      var m := Mineable(init, last);
      assert (m + [t])[..|m|] == m && m + [] == m;
    }
  }

  /** Which tickets have voted, and with what. */
  lemma {:induction false} CastIs(txs: seq<Tx>, last: BlockID)
    ensures forall t :: t in txs && ForLastBlock(t, last) ==> t.vote.value.ticketSpent in Cast(txs, last)
    ensures forall k :: k in Cast(txs, last) ==>
      Cast(txs, last)[k] in txs && ForLastBlock(Cast(txs, last)[k], last)
      && Cast(txs, last)[k].vote.value.ticketSpent == k
  {
    if txs != [] {
      CastIs(txs[..|txs| - 1], last);
      assert txs == txs[..|txs| - 1] + [txs[|txs| - 1]];
    }
  }

  /** Two summaries that differ at most in what the votes contribute to the amounts. */
  predicate SameButVoteAmounts(a: MempoolShort, b: MempoolShort) {
    a == b.(likely := b.likely.(total := a.likely.total, size := a.likely.size, voteTotal := a.likely.voteTotal))
  }

  /** Votes on the last block that spend the same ticket have the same amount and size;
      so it is, in particular, when each ticket is voted at most once. */
  ghost predicate AlikeVotes(txs: seq<Tx>, last: BlockID) {
    forall a, b :: a in txs && b in txs && SameTicket(a, b, last) ==> a.totalOut == b.totalOut && a.size == b.size
  }

  predicate SameTicket(a: Tx, b: Tx, last: BlockID) {
    ForLastBlock(a, last) && ForLastBlock(b, last) && a.vote.value.ticketSpent == b.vote.value.ticketSpent
  }

  /** Every count, inventory set, total and set of voters is the same in whatever order
      the transactions came; all amounts are when the votes are alike. */
  lemma OrderDoesNotMatter(a: seq<Tx>, b: seq<Tx>, last: BlockID)
    requires multiset(a) == multiset(b)
    ensures SameButVoteAmounts(Summarize(a, last), Summarize(b, last))
    ensures AlikeVotes(a, last) ==> Summarize(a, last) == Summarize(b, last)
  {
    hide Weigh, Cast, Mineable, HashesOf, AlikeVotes;
    SameHashes(a, b);
    SameWeights(a, b);
    SameVoters(a, b, last);
    MineableIs(a, last);
    MineableIs(b, last);
    PartsAddUp(a, last);
    PartsAddUp(b, last);
    forall k: TxType | k != Vote
      ensures Weigh(Mineable(a, last), OutOf(k)) == Weigh(Mineable(b, last), OutOf(k))
    {
      OthersAllCount(a, k, last);
      OthersAllCount(b, k, last);
    }
  }

  lemma SameHashes(a: seq<Tx>, b: seq<Tx>)
    requires multiset(a) == multiset(b)
    ensures forall t :: t in a <==> t in b
    ensures HashesOf(a, true) == HashesOf(b, true) && HashesOf(a, false) == HashesOf(b, false)
  {
    forall t
      ensures t in a <==> t in b
    {
      assert t in multiset(a) <==> t in multiset(b);
    }
  }

  lemma SameVoters(a: seq<Tx>, b: seq<Tx>, last: BlockID)
    requires multiset(a) == multiset(b)
    ensures Cast(a, last).Keys == Cast(b, last).Keys && |Cast(a, last)| == |Cast(b, last)|
    ensures (AlikeVotes(a, last) ==>
               Outs(Cast(a, last)) == Outs(Cast(b, last)) && Sizes(Cast(a, last)) == Sizes(Cast(b, last)))
  {
    hide Cast, HashesOf;
    SameHashes(a, b);
    CastIs(a, last);
    CastIs(b, last);
    var x, y := Cast(a, last), Cast(b, last);
    assert x.Keys == y.Keys;
    assert |x| == |x.Keys| && |y| == |y.Keys|;
    if AlikeVotes(a, last) {
      forall k | k in x
        ensures x[k].totalOut == y[k].totalOut && x[k].size == y[k].size
      {
        assert SameTicket(x[k], y[k], last);
      }
    }
  }

  lemma SameWeights(a: seq<Tx>, b: seq<Tx>)
    requires multiset(a) == multiset(b)
    ensures Weigh(a, Out()) == Weigh(b, Out()) && Weigh(a, Size()) == Weigh(b, Size())
    ensures forall k: TxType :: Weigh(a, One(k)) == Weigh(b, One(k)) && Weigh(a, OutOf(k)) == Weigh(b, OutOf(k))
    ensures Weigh(a, NotVote(Unit())) == Weigh(b, NotVote(Unit()))
    ensures Weigh(a, NotVote(Size())) == Weigh(b, NotVote(Size()))
  {
    hide Weigh;
    WeighPermutation(a, b, Out());
    WeighPermutation(a, b, Size());
    WeighPermutation(a, b, NotVote(Unit()));
    WeighPermutation(a, b, NotVote(Size()));
    forall k: TxType
      ensures Weigh(a, One(k)) == Weigh(b, One(k)) && Weigh(a, OutOf(k)) == Weigh(b, OutOf(k))
    {
      WeighPermutation(a, b, One(k));
      WeighPermutation(a, b, OutOf(k));
    }
  }

  predicate SameTxs(a: seq<Tx>, b: seq<Tx>) {
    multiset(a) == multiset(b)
  }

  ghost predicate OrderFree(txs: seq<Tx>, last: BlockID) {
    forall other :: SameTxs(txs, other) ==> Likely(other, last) == Likely(txs, last)
  }

  /** Whichever of two votes on one ticket comes first is the one that counts. */
  lemma {:induction false} FirstVoteCounts(a: Tx, b: Tx, rest: seq<Tx>, last: BlockID) returns (tail: seq<Tx>)
    requires SameTicket(a, b, last)
    ensures Mineable([a, b] + rest, last) == [a] + tail && Mineable([b, a] + rest, last) == [b] + tail
    ensures Cast([a, b] + rest, last).Keys == Cast([b, a] + rest, last).Keys
  {
    if rest == [] {
      tail := [];
      FirstOfTwo(a, b, last);
      FirstOfTwo(b, a, last);
      assert [a, b] + rest == [a, b] && [b, a] + rest == [b, a];
    } else {
      var init, t := rest[..|rest| - 1], rest[|rest| - 1];
      tail := FirstVoteCounts(a, b, init, last);
      assert ([a, b] + rest)[..|rest| + 1] == [a, b] + init;
      assert ([b, a] + rest)[..|rest| + 1] == [b, a] + init;
      tail := tail + if Counts([a, b] + init, t, last) then [t] else [];
    }
  }

  lemma FirstOfTwo(a: Tx, b: Tx, last: BlockID)
    requires SameTicket(a, b, last)
    ensures Mineable([a, b], last) == [a]
    ensures Cast([a, b], last) == map[a.vote.value.ticketSpent := a]
  {
    assert [a, b][..1] == [a];
    assert [a][..0] == [];
    assert Mineable([a], last) == [a];
  }

  /** The likely mineable amounts are the same in every order exactly when the votes are
      alike. */
  lemma OrderFreeExactly(txs: seq<Tx>, last: BlockID)
    ensures OrderFree(txs, last) <==> AlikeVotes(txs, last)
  {
    hide Likely, Mineable, Cast, SameTxs;
    if AlikeVotes(txs, last) {
      forall other | SameTxs(txs, other)
        ensures Likely(other, last) == Likely(txs, last)
      {
        SameTxsAlike(txs, other, last);
      }
    } else {
      var a, b :| a in txs && b in txs && SameTicket(a, b, last) && !(a.totalOut == b.totalOut && a.size == b.size);
      var rest := Without(txs, a, b);
      TwoOrders(txs, a, b, rest);
      OrderShows(a, b, rest, last);
    }
  }

  lemma SameTxsAlike(txs: seq<Tx>, other: seq<Tx>, last: BlockID)
    requires SameTxs(txs, other) && AlikeVotes(txs, last)
    ensures Likely(other, last) == Likely(txs, last)
  {
    hide Likely;
    OrderDoesNotMatter(txs, other, last);
  }

  lemma TwoOrders(txs: seq<Tx>, a: Tx, b: Tx, rest: seq<Tx>)
    requires multiset(txs) == multiset(rest) + multiset{a, b}
    ensures SameTxs(txs, [a, b] + rest) && SameTxs(txs, [b, a] + rest)
  {
    assert multiset([a, b] + rest) == multiset(txs);
    assert multiset([b, a] + rest) == multiset(txs);
  }

  /** The remaining transactions, for two different ones of a list. */
  lemma Without(txs: seq<Tx>, a: Tx, b: Tx) returns (rest: seq<Tx>)
    requires a in txs && b in txs && a != b
    ensures multiset(txs) == multiset(rest) + multiset{a, b}
  {
    var front, back := Place(txs, a);
    var one := front + back;
    assert b in multiset(txs);
    assert b in multiset(one);
    front, back := Place(one, b);
    rest := front + back;
  }

  lemma OrderShows(a: Tx, b: Tx, rest: seq<Tx>, last: BlockID)
    requires SameTicket(a, b, last) && !(a.totalOut == b.totalOut && a.size == b.size)
    ensures Likely([a, b] + rest, last) != Likely([b, a] + rest, last)
  {
    hide Mineable, Cast;
    var tail := FirstVoteCounts(a, b, rest, last);
    WeighConcat([a], tail, Out());
    WeighConcat([b], tail, Out());
    WeighConcat([a], tail, Size());
    WeighConcat([b], tail, Size());
    assert [a][..0] == [] && [b][..0] == [];
  }

  // ------------------------------------------------------------------------
  // One transaction at a time
  // ------------------------------------------------------------------------

  /** The likely mineable totals with one more transaction. */
  function ExtendLikely(l: LikelyMineable, t: Tx): LikelyMineable {
    LikelyMineable(l.total + OutAt(t), l.size + SizeAt(t), l.count + 1, l.regularTotal + OutOfAt(Regular, t),
                   l.ticketTotal + OutOfAt(Ticket, t), l.voteTotal + OutOfAt(Vote, t),
                   l.revokeTotal + OutOfAt(Revocation, t))
  }

  /** Whether a transaction is likely mineable, given the tickets that have voted. */
  predicate CountsAfter(voted: set<Hash>, t: Tx, last: BlockID) {
    t.kind != Vote || (ForLastBlock(t, last) && t.vote.value.ticketSpent !in voted)
  }

  function Voters(voted: set<Hash>, t: Tx, last: BlockID): set<Hash> {
    if ForLastBlock(t, last) then voted + {t.vote.value.ticketSpent} else voted
  }

  /** The summary with one more transaction. */
  function Extend(s: MempoolShort, t: Tx, last: BlockID): MempoolShort {
    var counts := CountsAfter(s.votedTickets, t, last);
    MempoolShort(if t.kind == Regular then s.invRegular + {t.hash} else s.invRegular,
            if t.kind != Regular then s.invStake + {t.hash} else s.invStake,
            s.numTickets + OneAt(Ticket, t), s.numVotes + OneAt(Vote, t), s.numRegular + OneAt(Regular, t),
            s.numRevokes + OneAt(Revocation, t), s.totalOut + OutAt(t), s.totalSize + SizeAt(t),
            Voters(s.votedTickets, t, last),
            if t.kind == Vote && counts then s.ticketsVoted + 1 else s.ticketsVoted,
            if counts then ExtendLikely(s.likely, t) else s.likely)
  }

  lemma AmountsOne(txs: seq<Tx>, t: Tx)
    ensures Weigh(txs + [t], Out()) == Weigh(txs, Out()) + OutAt(t)
    ensures Weigh(txs + [t], Size()) == Weigh(txs, Size()) + SizeAt(t)
    ensures forall k: TxType :: Weigh(txs + [t], OutOf(k)) == Weigh(txs, OutOf(k)) + OutOfAt(k, t)
    ensures forall k: TxType :: Weigh(txs + [t], One(k)) == Weigh(txs, One(k)) + OneAt(k, t)
  {
    assert (txs + [t])[..|txs|] == txs;
  }

  lemma LikelyOne(txs: seq<Tx>, t: Tx, last: BlockID)
    ensures (Likely(txs + [t], last) ==
             if Counts(txs, t, last) then ExtendLikely(Likely(txs, last), t) else Likely(txs, last))
  {
    hide Weigh, Cast, OutAt, SizeAt, OutOfAt;
    assert (txs + [t])[..|txs|] == txs;
    var m := Mineable(txs, last);
    assert m + [] == m;
    AmountsOne(m, t);
  }

  lemma VotersOne(txs: seq<Tx>, t: Tx, last: BlockID)
    ensures Cast(txs + [t], last).Keys == Voters(Cast(txs, last).Keys, t, last)
    ensures (|Cast(txs + [t], last)| ==
             if t.kind == Vote && Counts(txs, t, last) then |Cast(txs, last)| + 1 else |Cast(txs, last)|)
    ensures Counts(txs, t, last) == CountsAfter(Cast(txs, last).Keys, t, last)
  {
    assert (txs + [t])[..|txs|] == txs;
  }

  lemma HashesOne(txs: seq<Tx>, t: Tx)
    ensures HashesOf(txs + [t], true) == HashesOf(txs, true) + if t.kind == Regular then {t.hash} else {}
    ensures HashesOf(txs + [t], false) == HashesOf(txs, false) + if t.kind != Regular then {t.hash} else {}
  {
  }

  /** What one more transaction does to a summary, field by field. A vote without
      VoteInfo adds to the inventory and to the number of votes only. */
  predicate Joined(was: MempoolShort, s: MempoolShort, t: Tx, last: BlockID) {
    var undecoded := t.kind == Vote && t.vote.None?;
    var onLast := t.kind == Vote && t.vote.Some? && t.vote.value.block == last.hash;
    var first := onLast && t.vote.value.ticketSpent !in was.votedTickets;
    var out, size := if undecoded then 0 else t.totalOut, if undecoded then 0 else t.size;
    var l, m := was.likely, s.likely;
    && s.invRegular == was.invRegular + (if t.kind == Regular then {t.hash} else {})
    && s.invStake == was.invStake + (if t.kind == Regular then {} else {t.hash})
    && s.numTickets == was.numTickets + (if t.kind == Ticket then 1 else 0)
    && s.numVotes == was.numVotes + (if t.kind == Vote then 1 else 0)
    && s.numRegular == was.numRegular + (if t.kind == Regular then 1 else 0)
    && s.numRevokes == was.numRevokes + (if t.kind == Revocation then 1 else 0)
    && s.totalOut == was.totalOut + out && s.totalSize == was.totalSize + size
    && s.votedTickets == was.votedTickets + (if first then {t.vote.value.ticketSpent} else {})
    && s.ticketsVoted == was.ticketsVoted + (if first then 1 else 0)
    && if t.kind == Vote && !first then m == l
       else
         && m.total == l.total + t.totalOut && m.size == l.size + t.size && m.count == l.count + 1
         && m.regularTotal == l.regularTotal + (if t.kind == Regular then t.totalOut else 0)
         && m.ticketTotal == l.ticketTotal + (if t.kind == Ticket then t.totalOut else 0)
         && m.voteTotal == l.voteTotal + (if t.kind == Vote then t.totalOut else 0)
         && m.revokeTotal == l.revokeTotal + (if t.kind == Revocation then t.totalOut else 0)
  }

  /** With Nothing for the empty list, this is all that a summary is. */
  lemma SummaryJoined(txs: seq<Tx>, t: Tx, last: BlockID)
    ensures Joined(Summarize(txs, last), Summarize(txs + [t], last), t, last)
  {
    hide Summarize;
    SummaryOne(txs, t, last);
  }

  lemma SummaryOne(txs: seq<Tx>, t: Tx, last: BlockID)
    ensures Summarize(txs + [t], last) == Extend(Summarize(txs, last), t, last)
  {
    hide Weigh, Likely, Cast, HashesOf, Voters, CountsAfter, Counts, ExtendLikely, OutAt, SizeAt, OutOfAt, OneAt;
    hide One, Out, Size;
    HashesOne(txs, t);
    AmountsOne(txs, t);
    VotersOne(txs, t, last);
    LikelyOne(txs, t, last);
  }

  function OfKind(txs: seq<Tx>, kind: TxType): seq<Tx> {
    if txs == [] then []
    else
      var t := txs[|txs| - 1];
      OfKind(txs[..|txs| - 1], kind) + if t.kind == kind then [t] else []
  }

  /** The list holds the transactions of a kind, in some order. */
  ghost predicate Listed(list: seq<Tx>, taken: seq<Tx>, kind: TxType) {
    multiset(list) == multiset(OfKind(taken, kind))
  }

  lemma ListedOne(list: seq<Tx>, taken: seq<Tx>, t: Tx, kind: TxType)
    requires Listed(list, taken, kind)
    ensures Listed((if t.kind == kind then [t] else []) + list, taken + [t], kind)
  {
    assert (taken + [t])[..|taken|] == taken;
    assert OfKind(taken, kind) + [] == OfKind(taken, kind) && [] + list == list;
  }

  /** The latest time of a transaction that the totals include. */
  function LatestTime(txs: seq<Tx>): int {
    if txs == [] then 0
    else
      var before, t := LatestTime(txs[..|txs| - 1]), txs[|txs| - 1];
      if Decoded(t) && before < t.time then t.time else before
  }

  function Newest(txs: seq<Tx>): seq<Tx> {
    if |txs| > NUM_LATEST_MEMPOOL_TXNS then txs[..NUM_LATEST_MEMPOOL_TXNS] else txs
  }

  lemma NewestOne(txs: seq<Tx>, t: Tx)
    ensures (Newest([t] + txs) ==
             [t] + if |Newest(txs)| >= NUM_LATEST_MEMPOOL_TXNS then Newest(txs)[..|Newest(txs)| - 1] else Newest(txs))
  {
  }

  predicate TimeSorted(txs: seq<Tx>) {
    forall i, j :: 0 <= i < j < |txs| ==> txs[i].time >= txs[j].time
  }

  datatype Raw = Raw(time: int, tx: Option<Tx>)

  datatype RefreshResult = Refreshed | CollectFailed | ParsePanicked

  datatype Outcome = Added | OldTx | Undecodable | Duplicate | FutureVote | Panicked

  function Verdict(taken: seq<Tx>, raw: Raw, last: BlockID): Outcome {
    if raw.time < last.time then OldTx
    else if raw.tx.None? then Undecodable
    else if Known(taken, raw.tx.value) then Duplicate
    else if !Decoded(raw.tx.value) then Panicked
    else if raw.tx.value.kind == Vote && raw.tx.value.vote.value.height > last.height then FutureVote
    else Added
  }

  /** A summary extended in all but the totals over all kinds. */
  function Classified(s: MempoolShort, t: Tx, last: BlockID): MempoolShort {
    var e := Extend(s, t, last);
    var l := e.likely.(total := s.likely.total, size := s.likely.size, count := s.likely.count);
    e.(totalOut := s.totalOut, totalSize := s.totalSize, likely := l)
  }

  /** The rest of an extension: the totals over all kinds. */
  function Totalled(s: MempoolShort, t: Tx, likely: bool): MempoolShort {
    var l := s.likely;
    s.(totalOut := s.totalOut + t.totalOut, totalSize := s.totalSize + t.size,
       likely := if likely then l.(size := l.size + t.size, total := l.total + t.totalOut, count := l.count + 1) else l)
  }

  lemma ClassifiedAndTotalled(s: MempoolShort, t: Tx, last: BlockID)
    requires Decoded(t)
    ensures Totalled(Classified(s, t, last), t, CountsAfter(s.votedTickets, t, last)) == Extend(s, t, last)
  {
  }

  class MempoolInfo {
    var transactions: seq<Tx>
    var tickets: seq<Tx>
    var votes: seq<Tx>
    var revocations: seq<Tx>
    var latestTransactions: seq<Tx>
    /** The embedded MempoolShort, but for what follows. */
    var short: MempoolShort
    var numAll: int
    var time: int
    var ident: nat

    /** The distinct transactions taken in, in the order in which they were. */
    ghost var taken: seq<Tx>
    /** All transactions with the newest first. */
    ghost var newest: seq<Tx>

    ghost predicate Lists(taken: seq<Tx>)
      reads this
    {
      && Listed(tickets, taken, Ticket)
      && Listed(votes, taken, Vote)
      && Listed(transactions, taken, Regular)
      && Listed(revocations, taken, Revocation)
    }

    ghost predicate Valid(last: BlockID)
      reads this
    {
      && short == Summarize(taken, last)
      && Lists(taken)
      && latestTransactions == Newest(newest)
    }

    constructor (short: MempoolShort, time: int, numAll: int, latest: seq<Tx>, transactions: seq<Tx>, tickets: seq<Tx>,
                 votes: seq<Tx>, revocations: seq<Tx>, last: BlockID, ghost taken: seq<Tx>, ghost newest: seq<Tx>)
      requires short == Summarize(taken, last) && latest == Newest(newest)
      requires Listed(tickets, taken, Ticket) && Listed(votes, taken, Vote)
      requires Listed(transactions, taken, Regular) && Listed(revocations, taken, Revocation)
      ensures Valid(last) && this.taken == taken && this.newest == newest
      ensures this.numAll == numAll && this.time == time && ident == 0
    {
      hide Summarize, Newest, Listed;
      this.short, this.time, this.numAll, this.ident := short, time, numAll, 0;
      this.transactions, this.tickets, this.votes, this.revocations := transactions, tickets, votes, revocations;
      this.latestTransactions := latest;
      this.taken, this.newest := taken, newest;
    }

    /** Adds the transaction to the list of its kind, and to what the kind counts.
        Whether it is likely mineable depends, for a vote, on the tickets that voted. */
    method Classify(t: Tx, last: BlockID) returns (likely: bool)
      requires Decoded(t)
      modifies `short, `tickets, `votes, `transactions, `revocations
      ensures likely == CountsAfter(old(short.votedTickets), t, last)
      ensures short == Classified(old(short), t, last)
      ensures tickets == (if t.kind == Ticket then [t] else []) + old(tickets)
      ensures votes == (if t.kind == Vote then [t] else []) + old(votes)
      ensures transactions == (if t.kind == Regular then [t] else []) + old(transactions)
      ensures revocations == (if t.kind == Revocation then [t] else []) + old(revocations)
    {
      var s := short;
      var l := s.likely;
      likely := true;
      match t.kind {
        case Ticket =>
          tickets := [t] + tickets;
          s := s.(invStake := s.invStake + {t.hash}, numTickets := s.numTickets + 1);
          s := s.(likely := l.(ticketTotal := l.ticketTotal + t.totalOut));
        case Vote =>
          votes := [t] + votes;
          s := s.(invStake := s.invStake + {t.hash}, numVotes := s.numVotes + 1);
          var v := t.vote.value;
          if v.block == last.hash && v.ticketSpent !in s.votedTickets {
            s := s.(votedTickets := s.votedTickets + {v.ticketSpent}, ticketsVoted := s.ticketsVoted + 1);
            s := s.(likely := l.(voteTotal := l.voteTotal + t.totalOut));
          } else {
            likely := false;
          }
        case Regular =>
          transactions := [t] + transactions;
          s := s.(invRegular := s.invRegular + {t.hash}, numRegular := s.numRegular + 1);
          s := s.(likely := l.(regularTotal := l.regularTotal + t.totalOut));
        case Revocation =>
          revocations := [t] + revocations;
          s := s.(invStake := s.invStake + {t.hash}, numRevokes := s.numRevokes + 1);
          s := s.(likely := l.(revokeTotal := l.revokeTotal + t.totalOut));
      }
      short := s;
    }

    /** Updates the latest transactions and the totals over all kinds. */
    method Total(t: Tx, likely: bool)
      modifies `short, `numAll, `latestTransactions
      ensures short == Totalled(old(short), t, likely) && numAll == old(numAll) + 1
      ensures (latestTransactions ==
               [t] + if |old(latestTransactions)| >= NUM_LATEST_MEMPOOL_TXNS
                     then old(latestTransactions)[..|old(latestTransactions)| - 1] else old(latestTransactions))
    {
      var numLatest := |latestTransactions|;
      if numLatest >= NUM_LATEST_MEMPOOL_TXNS {
        latestTransactions := [t] + latestTransactions[..numLatest - 1];
      } else {
        latestTransactions := [t] + latestTransactions;
      }
      numAll := numAll + 1;
      var s := short.(totalOut := short.totalOut + t.totalOut, totalSize := short.totalSize + t.size);
      if likely {
        var l := s.likely;
        s := s.(likely := l.(size := l.size + t.size, total := l.total + t.totalOut, count := l.count + 1));
      }
      short := s;
    }

    /** The rest of TxHandler, for a transaction that joins the inventory. */
    method Take(t: Tx, last: BlockID)
      requires Valid(last) && Decoded(t)
      modifies this
      ensures Valid(last)
      ensures taken == old(taken) + [t] && newest == [t] + old(newest)
      ensures numAll == old(numAll) + 1 && time == old(time) && ident == old(ident)
    {
      hide Summarize, OfKind, Extend, Classified, Totalled, Listed, Newest, CountsAfter, Decoded;
      SummaryOne(taken, t, last);
      ClassifiedAndTotalled(short, t, last);
      ListedOne(tickets, taken, t, Ticket);
      ListedOne(votes, taken, t, Vote);
      ListedOne(transactions, taken, t, Regular);
      ListedOne(revocations, taken, t, Revocation);
      NewestOne(newest, t);
      var likely := Classify(t, last);
      Total(t, likely);
      taken, newest := taken + [t], [t] + newest;
    }
  }

  class MempoolMonitor {
    var inventory: MempoolInfo
    var lastBlock: BlockID

    ghost predicate Valid()
      reads this, inventory
    {
      inventory.Valid(lastBlock)
    }

    constructor (inventory: MempoolInfo, lastBlock: BlockID)
      requires inventory.Valid(lastBlock)
      ensures Valid() && this.inventory == inventory && this.lastBlock == lastBlock
    {
      this.inventory, this.lastBlock := inventory, lastBlock;
    }

    /** TxHandler: a transaction received before the last block, one that does not decode,
        one already in the inventory and a vote on a future block change nothing but, in
        the last case, the inventory's identifier. A vote without VoteInfo crashes it. */
    method TxHandler(raw: Raw) returns (r: Outcome)
      requires Valid()
      modifies inventory
      ensures Valid()
      ensures r == Verdict(old(inventory.taken), raw, lastBlock)
      ensures
        if raw.time < lastBlock.time then r == OldTx
        else if raw.tx.None? then r == Undecodable
        else
          var t := raw.tx.value;
          if t.hash in (if t.kind == Regular then old(inventory.short.invRegular) else old(inventory.short.invStake))
          then r == Duplicate
          else if t.kind == Vote && t.vote.None? then r == Panicked
          else r == if t.kind != Vote || t.vote.value.height <= lastBlock.height then Added else FutureVote
      ensures r.Added? ==> Joined(old(inventory.short), inventory.short, raw.tx.value, lastBlock)
      ensures !r.Added? ==> inventory.short == old(inventory.short)
      ensures (inventory.latestTransactions ==
               if |inventory.newest| > 5 then inventory.newest[..5] else inventory.newest)
      ensures inventory.taken == Arrive(old(inventory.taken), [raw], lastBlock)
      ensures r.Added? ==> inventory.newest == [raw.tx.value] + old(inventory.newest)
      ensures r.Added? ==> inventory.numAll == old(inventory.numAll) + 1
      ensures !r.Added? ==> inventory.numAll == old(inventory.numAll) && inventory.newest == old(inventory.newest)
      ensures inventory.time == old(inventory.time)
      ensures inventory.ident == old(inventory.ident) + if r in {Added, FutureVote, Panicked} then 1 else 0
    {
      hide Summarize, OfKind, Joined;
      ghost var before := inventory.taken;
      assert [raw][..0] == [];
      if raw.time < lastBlock.time {
        return OldTx;
      }
      if raw.tx.None? {
        return Undecodable;
      }
      var t := raw.tx.value;
      InventoriesAre(before, lastBlock);
      if t.hash in (if t.kind == Regular then inventory.short.invRegular else inventory.short.invStake) {
        return Duplicate;
      }
      inventory.ident := inventory.ident + 1;
      if t.kind == Vote && t.vote.None? {
        return Panicked;
      }
      if t.kind == Vote && t.vote.value.height > lastBlock.height {
        return FutureVote;
      }
      SummaryJoined(before, t, lastBlock);
      inventory.Take(t, lastBlock);
      return Added;
    }

    /** The transactions that the notifier hands over, one after the other. */
    method HandleAll(raws: seq<Raw>)
      requires Valid()
      modifies inventory
      ensures Valid()
      ensures inventory.taken == Arrive(old(inventory.taken), raws, lastBlock)
      ensures inventory.time == old(inventory.time)
    {
      hide Summarize, OfKind, Newest, Listed;
      ghost var before := inventory.taken;
      for n := 0 to |raws|
        invariant Valid()
        invariant inventory.taken == Arrive(before, raws[..n], lastBlock)
        invariant inventory.time == old(inventory.time)
      {
        ArriveOne(before, raws, n, lastBlock);
        var _ := TxHandler(raws[n]);
      }
      assert raws[..|raws|] == raws;
    }

    /** Refresh: a batch over all of the mempool replaces the inventory, unless it could
        not be collected. */
    method Refresh(collected: Option<seq<Tx>>, block: BlockID) returns (r: RefreshResult, ghost order: seq<Tx>)
      requires Valid()
      modifies this
      ensures Valid()
      ensures !r.Refreshed? ==> inventory == old(inventory) && lastBlock == old(lastBlock)
      ensures r.CollectFailed? <==> collected.None?
      ensures collected.Some? ==> TimeSorted(order) && multiset(order) == multiset(collected.value)
      ensures r.ParsePanicked? <==> collected.Some? && SortCrashes(OfKind(Unique(order), Vote))
      ensures r.Refreshed? ==> lastBlock == block && inventory.taken == Unique(order)
      ensures r.Refreshed? ==> inventory.numAll == |order| && inventory.ident == old(inventory.ident) + 1
    {
      hide Summarize, SortCrashes, OfKind, Unique, Newest, Listed;
      order := [];
      if collected.None? {
        return CollectFailed, order;
      }
      var txs := SortByTime(collected.value);
      var info;
      info, order := ParseTxns(txs, block);
      if info == null {
        return ParsePanicked, order;
      }
      assert |multiset(order)| == |order| && |multiset(txs)| == |txs|;
      info.ident := inventory.ident + 1;
      inventory, lastBlock := info, block;
      return Refreshed, order;
    }
  }

  lemma InventoriesAre(taken: seq<Tx>, last: BlockID)
    ensures Summarize(taken, last).invRegular == HashesOf(taken, true)
    ensures Summarize(taken, last).invStake == HashesOf(taken, false)
  {
  }

  lemma KindsOne(txs: seq<Tx>, t: Tx)
    ensures forall k: TxType :: OfKind(txs + [t], k) == OfKind(txs, k) + if t.kind == k then [t] else []
  {
    assert (txs + [t])[..|txs|] == txs;
  }

  // ------------------------------------------------------------------------
  // Incremental is batch
  // ------------------------------------------------------------------------

  /** The transactions taken in after a run of TxHandler. */
  function Arrive(taken: seq<Tx>, raws: seq<Raw>, last: BlockID): seq<Tx>
    decreases |raws|
  {
    if raws == [] then taken
    else
      var before, raw := Arrive(taken, raws[..|raws| - 1], last), raws[|raws| - 1];
      if Verdict(before, raw, last).Added? then before + [raw.tx.value] else before
  }

  /** The transactions of a run that are neither undecodable, old nor votes on the future. */
  function Eligible(raws: seq<Raw>, last: BlockID): seq<Tx>
    decreases |raws|
  {
    if raws == [] then []
    else
      var raw := raws[|raws| - 1];
      Eligible(raws[..|raws| - 1], last) +
      match raw.tx
      case None => []
      case Some(t) =>
        if raw.time >= last.time && (t.kind == Vote ==> t.vote.Some? && t.vote.value.height <= last.height)
        then [t] else []
  }

  lemma ArriveOne(taken: seq<Tx>, raws: seq<Raw>, n: nat, last: BlockID)
    requires n < |raws|
    ensures Arrive(taken, raws[..n + 1], last) == Arrive(Arrive(taken, raws[..n], last), [raws[n]], last)
  {
    assert raws[..n + 1][..n] == raws[..n];
    assert [raws[n]][..0] == [];
  }

  /** A hash names one transaction. */
  ghost predicate HashNames(txs: seq<Tx>) {
    forall a, b :: a in txs && b in txs && a.hash == b.hash ==> a == b
  }

  lemma {:induction false} UniqueIs(txs: seq<Tx>)
    ensures NoDup(Unique(txs))
    ensures forall t :: t in Unique(txs) ==> t in txs
    ensures HashNames(txs) ==> forall t :: t in txs ==> t in Unique(txs)
  {
    if txs != [] {
      var init, t := txs[..|txs| - 1], txs[|txs| - 1];
      assert txs == init + [t];
      UniqueIs(init);
      if HashNames(txs) {
        assert HashNames(init);
        if Known(Unique(init), t) {
          var x :| x in Unique(init) && x.hash == t.hash;
          assert x in txs && t in txs;
        }
      }
      if t in Unique(init) {
        assert t.hash in HashesOf(Unique(init), t.kind == Regular);
      }
    }
  }

  lemma {:induction false} DistinctMultiset(a: seq<Tx>, b: seq<Tx>)
    requires NoDup(a) && NoDup(b)
    requires forall t :: t in a <==> t in b
    ensures multiset(a) == multiset(b)
  {
    forall t
      ensures multiset(a)[t] == multiset(b)[t]
    {
      AtMostOnce(a, t);
      AtMostOnce(b, t);
    }
  }

  lemma {:induction false} AtMostOnce(a: seq<Tx>, t: Tx)
    requires NoDup(a)
    ensures multiset(a)[t] == if t in a then 1 else 0
  {
    if a != [] {
      var init, x := a[..|a| - 1], a[|a| - 1];
      assert a == init + [x];
      assert forall i :: 0 <= i < |init| ==> init[i] == a[i];
      AtMostOnce(init, t);
    }
  }

  /** After any run, the transactions taken in are the distinct ones of the initial list
      and the eligible arrivals. */
  lemma {:induction false} ArriveIsUnique(base: seq<Tx>, raws: seq<Raw>, last: BlockID)
    ensures Arrive(Unique(base), raws, last) == Unique(base + Eligible(raws, last))
    decreases |raws|
  {
    if raws == [] {
      assert base + [] == base;
    } else {
      var init, raw := raws[..|raws| - 1], raws[|raws| - 1];
      ArriveIsUnique(base, init, last);
      var txs := base + Eligible(init, last);
      if Eligible(raws, last) != Eligible(init, last) {
        assert base + Eligible(raws, last) == txs + [raw.tx.value];
        assert (txs + [raw.tx.value])[..|txs|] == txs;
      } else {
        assert Eligible(raws, last) == Eligible(init, last);
      }
    }
  }

  /** Starting from a batch and taking in what arrives, the inventory is the one that a
      batch over all those transactions computes, whatever their order and repeats: except
      that, where two votes on a ticket differ, another of them may be the one counted. */
  lemma IncrementalIsBatch(base: seq<Tx>, raws: seq<Raw>, whole: seq<Tx>, last: BlockID)
    requires HashNames(whole)
    requires forall t :: t in whole <==> t in base + Eligible(raws, last)
    ensures SameButVoteAmounts(Summarize(Arrive(Unique(base), raws, last), last), Summarize(Unique(whole), last))
    ensures (AlikeVotes(whole, last) ==>
               Summarize(Arrive(Unique(base), raws, last), last) == Summarize(Unique(whole), last))
  {
    hide Summarize, Unique, Arrive, Eligible;
    var all := base + Eligible(raws, last);
    ArriveIsUnique(base, raws, last);
    assert HashNames(all);
    UniqueIs(all);
    UniqueIs(whole);
    DistinctMultiset(Unique(all), Unique(whole));
    OrderDoesNotMatter(Unique(all), Unique(whole), last);
    if AlikeVotes(whole, last) {
      assert AlikeVotes(Unique(all), last);
    }
  }

  /** No two transactions of the list share an inventory entry. */
  ghost predicate Distinct(txs: seq<Tx>) {
    forall i, j :: 0 <= i < j < |txs| ==> !SameEntry(txs[i], txs[j])
  }

  predicate SameEntry(a: Tx, b: Tx) {
    a.hash == b.hash && (a.kind == Regular) == (b.kind == Regular)
  }

  /** ParseTxns sets NumAll to the length of the list, so it counts repeats: it is the
      number of transactions in the inventory exactly when there are none. */
  lemma {:induction false} NumAllExactly(txs: seq<Tx>)
    ensures |Unique(txs)| <= |txs|
    ensures |Unique(txs)| == |txs| <==> Distinct(txs)
    ensures Distinct(txs) ==> Unique(txs) == txs
  {
    if txs != [] {
      var init, t := txs[..|txs| - 1], txs[|txs| - 1];
      NumAllExactly(init);
      assert txs == init + [t];
      DistinctOne(init, t);
    }
  }

  predicate HasEntry(txs: seq<Tx>, t: Tx) {
    exists x :: x in txs && SameEntry(x, t)
  }

  /** Without its repeats, a list has each of its entries once. */
  lemma {:induction false} UniqueEntries(txs: seq<Tx>)
    ensures Distinct(Unique(txs))
    ensures forall t :: t in Unique(txs) ==> t in txs
    ensures forall t :: t in txs ==> HasEntry(Unique(txs), t)
  {
    hide Distinct, Known, HasEntry;
    if txs == [] {
      NoneDistinct();
    } else {
      var init, t := txs[..|txs| - 1], txs[|txs| - 1];
      assert txs == init + [t];
      UniqueEntries(init);
      DistinctOne(Unique(init), t);
      forall y
        ensures HasEntry(Unique(init) + [t], y) <==> HasEntry(Unique(init), y) || SameEntry(t, y)
      {
        EntryOne(Unique(init), t, y);
      }
      KnownIsEntry(Unique(init), t);
    }
  }

  lemma KnownIsEntry(txs: seq<Tx>, t: Tx)
    ensures Known(txs, t) <==> HasEntry(txs, t)
  {
  }

  lemma EntryOne(txs: seq<Tx>, t: Tx, y: Tx)
    ensures HasEntry(txs + [t], y) <==> HasEntry(txs, y) || SameEntry(t, y)
  {
    assert t in txs + [t];
    assert forall x :: x in txs + [t] <==> x in txs || x == t;
  }

  lemma NoneDistinct()
    ensures Distinct([])
  {
  }

  lemma DistinctOne(txs: seq<Tx>, t: Tx)
    ensures Distinct(txs + [t]) <==> Distinct(txs) && !Known(txs, t)
  {
    var more := txs + [t];
    assert forall i :: 0 <= i < |txs| ==> more[i] == txs[i];
    if Known(txs, t) {
      var x :| x in txs && SameEntry(x, t);
      var i :| 0 <= i < |txs| && txs[i] == x;
      assert SameEntry(more[i], more[|txs|]);
    }
    if Distinct(txs) && !Known(txs, t) {
      forall i | 0 <= i < |txs|
        ensures !SameEntry(more[i], t)
      {
        assert txs[i] in txs;
      }
    }
  }

  /** The latest time is that of a transaction, or 0, and no transaction is later. */
  lemma {:induction false} LatestTimeIs(txs: seq<Tx>)
    ensures LatestTime(txs) == 0 || exists t :: t in txs && Decoded(t) && t.time == LatestTime(txs)
    ensures LatestTime(txs) >= 0
    ensures forall t :: t in txs && Decoded(t) ==> t.time <= LatestTime(txs)
  {
    if txs != [] {
      var init, t := txs[..|txs| - 1], txs[|txs| - 1];
      assert txs == init + [t];
      LatestTimeIs(init);
      assert t in txs;
    }
  }

  /** Adding transactions moves the latest time on exactly if one of them is later. */
  lemma LatestTimeMoves(few: seq<Tx>, more: seq<Tx>, many: seq<Tx>)
    requires forall t :: t in many <==> t in few || t in more
    ensures LatestTime(many) >= LatestTime(few)
    ensures (LatestTime(many) == LatestTime(few) <==>
             forall t :: t in more && Decoded(t) ==> t.time <= LatestTime(few))
  {
    hide LatestTime;
    LatestTimeIs(few);
    LatestTimeIs(many);
  }

  lemma {:induction false} EligibleDecoded(raws: seq<Raw>, last: BlockID)
    ensures forall t :: t in Eligible(raws, last) ==> Decoded(t)
    decreases |raws|
  {
    if raws != [] {
      EligibleDecoded(raws[..|raws| - 1], last);
    }
  }

  /** TxHandler does not touch the inventory's time, so after a batch and a run it is that
      of the first batch. A batch over everything would have moved it on exactly when
      something newer arrived. */
  lemma TimeLagsExactly(base: seq<Tx>, raws: seq<Raw>, whole: seq<Tx>, last: BlockID)
    requires HashNames(whole)
    requires forall t :: t in whole <==> t in base + Eligible(raws, last)
    ensures LatestTime(Unique(whole)) >= LatestTime(Unique(base))
    ensures (LatestTime(Unique(whole)) == LatestTime(Unique(base)) <==>
             forall t :: t in Eligible(raws, last) ==> t.time <= LatestTime(Unique(base)))
  {
    hide LatestTime, Unique, Eligible;
    assert HashNames(base);
    UniqueIs(base);
    UniqueIs(whole);
    EligibleDecoded(raws, last);
    LatestTimeMoves(Unique(base), Eligible(raws, last), Unique(whole));
  }

  // ------------------------------------------------------------------------
  // The batch
  // ------------------------------------------------------------------------

  /** The list, by time from the newest to the oldest. */
  method SortByTime(txs: seq<Tx>) returns (sorted: seq<Tx>)
    ensures TimeSorted(sorted) && multiset(sorted) == multiset(txs)
  {
    sorted := [];
    for n := 0 to |txs|
      invariant TimeSorted(sorted) && multiset(sorted) == multiset(txs[..n])
    {
      assert txs[..n + 1] == txs[..n] + [txs[n]];
      sorted := InsertByTime(sorted, txs[n]);
    }
    assert txs[..|txs|] == txs;
  }

  method InsertByTime(txs: seq<Tx>, t: Tx) returns (sorted: seq<Tx>)
    requires TimeSorted(txs)
    ensures TimeSorted(sorted) && multiset(sorted) == multiset(txs) + multiset{t}
  {
    hide TimeSorted;
    var k := |txs|;
    while k > 0 && txs[k - 1].time < t.time
      invariant 0 <= k <= |txs|
      invariant k < |txs| ==> txs[k].time < t.time
    {
      k := k - 1;
    }
    assert txs == txs[..k] + txs[k..];
    SortedAround(txs, t, k);
    sorted := Insert(txs, t, k);
  }

  function Insert(txs: seq<Tx>, t: Tx, k: nat): seq<Tx>
    requires k <= |txs|
  {
    txs[..k] + ([t] + txs[k..])
  }

  lemma SortedAround(txs: seq<Tx>, t: Tx, k: nat)
    requires TimeSorted(txs) && k <= |txs|
    requires k > 0 ==> txs[k - 1].time >= t.time
    requires k < |txs| ==> txs[k].time < t.time
    ensures TimeSorted(Insert(txs, t, k))
  {
    var r := Insert(txs, t, k);
    forall i, j | 0 <= i < j < |r|
      ensures r[i].time >= r[j].time
    {
      assert i < k ==> txs[i].time >= t.time;
      assert j > k ==> txs[j - 1].time <= t.time;
    }
  }

  /** The sort of the votes compares the VoteInfo of all of them, if there are several. */
  ghost predicate SortCrashes(votes: seq<Tx>) {
    |votes| > 1 && exists t :: t in votes && !Decoded(t)
  }

  lemma CrashMeans(votes: seq<Tx>)
    ensures SortCrashes(votes) <==> |votes| > 1 && exists t :: t in votes && t.kind == Vote && t.vote.None?
  {
  }

  method SortVotes(votes: seq<Tx>) returns (crashes: bool)
    ensures crashes <==> SortCrashes(votes)
  {
    crashes := false;
    for n := 0 to |votes|
      invariant crashes <==> exists i :: 0 <= i < n && !Decoded(votes[i])
    {
      crashes := crashes || !Decoded(votes[n]);
    }
    crashes := crashes && |votes| > 1;
  }

  /** ParseTxns: repeats count for nothing but NumAll, and votes without VoteInfo for
      nothing but their number. The final sort of the votes crashes on one of those,
      unless it is the only vote. */
  method ParseTxns(txs: seq<Tx>, last: BlockID) returns (info: MempoolInfo?, ghost order: seq<Tx>)
    ensures TimeSorted(order) && multiset(order) == multiset(txs)
    ensures info == null <==> SortCrashes(OfKind(Unique(order), Vote))
    ensures info == null <==>
      && |OfKind(Unique(order), Vote)| > 1
      && exists t :: t in OfKind(Unique(order), Vote) && t.kind == Vote && t.vote.None?
    ensures info != null ==> fresh(info) && info.Valid(last) && info.taken == Unique(order) && info.newest == order
    ensures info != null ==> info.numAll == |txs| && info.time == LatestTime(Unique(order)) && info.ident == 0
  {
    hide Summarize, OfKind, LatestTime, Extend, TimeSorted, Unique, HashesOf, Decoded, SortCrashes;
    var sorted := txs;
    var isSorted := TimeSortedNeighbours(txs);
    if !isSorted {
      sorted := SortByTime(txs);
    }
    order := sorted;
    Nothing(last);
    var tickets, votes, revs, regular: seq<Tx> := [], [], [], [];
    var short := MempoolShort({}, {}, 0, 0, 0, 0, 0, 0, {}, 0, LikelyMineable(0, 0, 0, 0, 0, 0, 0));
    var latestTime := 0;
    ghost var taken: seq<Tx> := [];
    for n := 0 to |sorted|
      invariant taken == Unique(sorted[..n])
      invariant short == Summarize(taken, last)
      invariant tickets == OfKind(taken, Ticket) && votes == OfKind(taken, Vote)
      invariant regular == OfKind(taken, Regular) && revs == OfKind(taken, Revocation)
      invariant latestTime == LatestTime(taken)
    {
      var t := sorted[n];
      UniqueOne(sorted, n);
      InventoriesAre(taken, last);
      if t.hash !in (if t.kind == Regular then short.invRegular else short.invStake) {
        SummaryOne(taken, t, last);
        KindsOne(taken, t);
        LatestOne(taken, t);
        short, latestTime := Include(short, latestTime, t, last);
        match t.kind {
          case Ticket => tickets := tickets + [t];
          case Vote => votes := votes + [t];
          case Revocation => revs := revs + [t];
          case Regular => regular := regular + [t];
        }
        taken := taken + [t];
      }
    }
    assert sorted[..|sorted|] == sorted;
    var crashes := SortVotes(votes);
    CrashMeans(votes);
    KindIs(taken, Vote);
    if crashes {
      return null, order;
    }
    var latest := if |sorted| > NUM_LATEST_MEMPOOL_TXNS then sorted[..NUM_LATEST_MEMPOOL_TXNS] else sorted;
    info := new MempoolInfo(short, latestTime, |txs|, latest, regular, tickets, votes, revs, last, taken, sorted);
  }

  method TimeSortedNeighbours(txs: seq<Tx>) returns (sorted: bool)
    ensures sorted <==> TimeSorted(txs)
  {
    var n := 1;
    while n < |txs|
      invariant n == 1 || 1 < n <= |txs|
      invariant n <= |txs| ==> TimeSorted(txs[..n])
    {
      if txs[n].time > txs[n - 1].time {
        return false;
      }
      n := n + 1;
    }
    if |txs| > 0 {
      assert txs[..|txs|] == txs;
    }
    return true;
  }

  lemma Nothing(last: BlockID)
    ensures (Summarize([], last) == MempoolShort({}, {}, 0, 0, 0, 0, 0, 0, {}, 0, LikelyMineable(0, 0, 0, 0, 0, 0, 0)))
    ensures forall k: TxType :: OfKind([], k) == []
    ensures LatestTime([]) == 0 && Unique([]) == []
  {
  }

  lemma UniqueOne(txs: seq<Tx>, n: nat)
    requires n < |txs|
    ensures (Unique(txs[..n + 1]) ==
             if Known(Unique(txs[..n]), txs[n]) then Unique(txs[..n]) else Unique(txs[..n]) + [txs[n]])
  {
    assert txs[..n + 1][..n] == txs[..n];
  }

  lemma LatestOne(txs: seq<Tx>, t: Tx)
    ensures LatestTime(txs + [t]) == if Decoded(t) && LatestTime(txs) < t.time then t.time else LatestTime(txs)
  {
    assert (txs + [t])[..|txs|] == txs;
  }

  /** What one pass of ParseTxns' loop adds, for a transaction that is no repeat. */
  method Include(before: MempoolShort, latestTime: int, t: Tx, last: BlockID) returns (s: MempoolShort, time: int)
    ensures s == Extend(before, t, last) && Joined(before, s, t, last)
    ensures time == if Decoded(t) && latestTime < t.time then t.time else latestTime
  {
    s, time := before, latestTime;
    var l := s.likely;
    var likely := true;
    match t.kind {
      case Ticket =>
        l := l.(ticketTotal := l.ticketTotal + t.totalOut);
        s := s.(invStake := s.invStake + {t.hash}, numTickets := s.numTickets + 1);
      case Vote =>
        s := s.(invStake := s.invStake + {t.hash}, numVotes := s.numVotes + 1);
        if t.vote.None? {
          return;
        }
        var v := t.vote.value;
        if v.block == last.hash && v.ticketSpent !in s.votedTickets {
          s := s.(votedTickets := s.votedTickets + {v.ticketSpent}, ticketsVoted := s.ticketsVoted + 1);
          l := l.(voteTotal := l.voteTotal + t.totalOut);
        } else {
          likely := false;
        }
      case Revocation =>
        l := l.(revokeTotal := l.revokeTotal + t.totalOut);
        s := s.(invStake := s.invStake + {t.hash}, numRevokes := s.numRevokes + 1);
      case Regular =>
        l := l.(regularTotal := l.regularTotal + t.totalOut);
        s := s.(invRegular := s.invRegular + {t.hash}, numRegular := s.numRegular + 1);
    }
    if likely {
      l := l.(total := l.total + t.totalOut, size := l.size + t.size, count := l.count + 1);
    }
    s := s.(likely := l, totalOut := s.totalOut + t.totalOut, totalSize := s.totalSize + t.size);
    if time < t.time {
      time := t.time;
    }
  }

  /** A batch and then a run of TxHandler, against a batch over everything: the same
      summary but for rival votes, and the same time exactly if nothing newer arrived.
      Each batch crashes exactly when its votes crash the sort. */
  method FollowAndCompare(base: seq<Tx>, raws: seq<Raw>, whole: seq<Tx>, last: BlockID)
    returns (followed: MempoolInfo?, batch: MempoolInfo?)
    requires HashNames(whole)
    requires forall t :: t in whole <==> t in base + Eligible(raws, last)
    ensures followed == null <==> SortCrashes(OfKind(Unique(base), Vote))
    ensures batch == null <==> SortCrashes(OfKind(Unique(whole), Vote))
    ensures followed != null && batch != null ==>
      && followed.Valid(last) && batch.Valid(last)
      && SameButVoteAmounts(followed.short, batch.short)
      && (AlikeVotes(whole, last) ==> followed.short == batch.short)
      && followed.time <= batch.time
      && (followed.time == batch.time <==> forall t :: t in Eligible(raws, last) ==> t.time <= followed.time)
  {
    hide Summarize, OfKind, Newest, Listed, Unique, Arrive, Eligible, LatestTime, HashNames, SortCrashes;
    ghost var first, second;
    followed, first := ParseTxns(base, last);
    batch, second := ParseTxns(whole, last);
    SameElements(first, base);
    SameElements(second, whole);
    SameHashNames(second, whole, last);
    FewerHashNames(base, whole);
    SameCrash(first, base);
    SameCrash(second, whole);
    if followed == null {
      return;
    }
    var monitor := new MempoolMonitor(followed, last);
    monitor.HandleAll(raws);
    IncrementalIsBatch(first, raws, second, last);
    TimeLagsExactly(first, raws, second, last);
  }

  /** Whether the sort of the votes crashes does not depend on the order of the list. */
  lemma SameCrash(a: seq<Tx>, b: seq<Tx>)
    requires multiset(a) == multiset(b) && HashNames(b)
    ensures SortCrashes(OfKind(Unique(a), Vote)) <==> SortCrashes(OfKind(Unique(b), Vote))
  {
    hide Unique, OfKind, Weigh, HashNames;
    SameElements(a, b);
    FewerHashNames(a, b);
    UniqueIs(a);
    UniqueIs(b);
    DistinctMultiset(Unique(a), Unique(b));
    WeighPermutation(Unique(a), Unique(b), One(Vote));
    KindIs(Unique(a), Vote);
    KindIs(Unique(b), Vote);
  }

  lemma {:induction false} KindIs(txs: seq<Tx>, kind: TxType)
    ensures |OfKind(txs, kind)| == Weigh(txs, One(kind))
    ensures forall t :: t in OfKind(txs, kind) <==> t in txs && t.kind == kind
  {
    if txs != [] {
      KindIs(txs[..|txs| - 1], kind);
      assert txs == txs[..|txs| - 1] + [txs[|txs| - 1]];
    }
  }

  lemma FewerHashNames(a: seq<Tx>, b: seq<Tx>)
    requires HashNames(b) && forall t :: t in a ==> t in b
    ensures HashNames(a)
  {
  }

  lemma SameElements(a: seq<Tx>, b: seq<Tx>)
    requires multiset(a) == multiset(b)
    ensures forall t :: t in a <==> t in b
  {
    SameHashes(a, b);
  }

  lemma SameHashNames(a: seq<Tx>, b: seq<Tx>, last: BlockID)
    requires forall t :: t in a <==> t in b
    ensures HashNames(b) ==> HashNames(a)
    ensures AlikeVotes(b, last) ==> AlikeVotes(a, last)
  {
  }
}
