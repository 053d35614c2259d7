/** Opening the databases (NewStakeDatabase, LoadAndRecover and NewTicketPool in
    stakedb): whatever heights the stake database and the ticket pool were left at,
    both are brought to one height, and a restart restores what was in memory. */
module Recovery {
  import opened Common
  import opened DiffStore
  import opened PoolDiffs
  import opened StakeNodes
  import opened TicketPools
  import opened StakeDB

  function Min(a: int, b: int): int {
    if a < b then a else b
  }

  /** NewTicketPool: all diffs on disk, an empty pool and the cursor at genesis. */
  method NewTicketPool(store: DB) returns (pool: TicketPool?)
    requires forall k :: k in store ==> |k| == KEY_SIZE
    ensures pool != null <==> exists n: nat :: Contiguous(store, n)
    ensures pool != null ==>
      fresh(pool) && pool.Valid() && pool.Faithful() && pool.cursor == 0
      && pool.diffDB == store && pool.stored == |pool.diffs|
  {
    var loaded := LoadAllPoolDiffs(store);
    if loaded.LoadPanicked? {
      return null;
    }
    pool := new TicketPool(store, loaded.diffs);
  }

  /** The stake database is not above the height, or the RPC knows its blocks from that
      height up, which are of one chain. */
  ghost predicate CanRollBack(rules: Rules, node: Node, height: int, rpc: Rpc) {
    0 <= height < |node| ==>
      Grounded(rules, node) && forall h :: height <= h <= |node| ==> Knows(rules, node, h, rpc)
  }

  /** Rolls the stake database back to the ticket pool's height, or else trims the
      ticket pool to the stake database's: both end at the smaller height. */
  method LevelHeights(db: StakeDatabase, rpc: Rpc) returns (r: Outcome)
    requires db.Valid()
    modifies db, db.PoolDB
    ensures db.Valid() && db.PoolDB.stored == old(db.PoolDB.stored) && db.PoolDB.diffDB == old(db.PoolDB.diffDB)
    ensures |db.bestNode| <= old(|db.bestNode|) && db.bestNode == old(db.bestNode)[..|db.bestNode|]
    ensures db.PoolDB.tip <= old(db.PoolDB.tip) && db.PoolDB.diffs == old(db.PoolDB.diffs)[..db.PoolDB.tip]
    ensures db.blockCache == old(db.blockCache)
    ensures r == Done ==>
      |db.bestNode| == db.PoolDB.tip == Min(old(|db.bestNode|), old(db.PoolDB.tip))
    ensures CanRollBack(db.rules, old(db.bestNode), old(db.PoolDB.tip), rpc) ==> r == Done
    ensures old(db.PoolDB.Faithful()) ==> db.PoolDB.Faithful()
    ensures old(db.PoolDB.cursor) == 0 ==> db.PoolDB.cursor == 0
  {
    hide Holds, Contiguous, PoolAt, SoundTo, Sum, Apply, Undo, Backward, FailedBackward, Knows, Grounded, CacheBackward;
    ghost var node, diffs := db.bestNode, db.PoolDB.diffs;
    var heightStakeDB, heightTicketPool := |db.bestNode|, db.PoolDB.tip;
    while heightStakeDB > heightTicketPool
      invariant db.Valid() && db.PoolDB.stored == old(db.PoolDB.stored) && db.PoolDB.diffDB == old(db.PoolDB.diffDB)
      invariant heightStakeDB == |db.bestNode| <= |node| && db.bestNode == node[..|db.bestNode|]
      invariant heightTicketPool == db.PoolDB.tip == |diffs| && db.PoolDB.diffs == diffs
      invariant heightStakeDB >= Min(|node|, |diffs|)
      invariant db.blockCache == old(db.blockCache)
      invariant old(db.PoolDB.Faithful()) ==> db.PoolDB.Faithful()
      invariant old(db.PoolDB.cursor) == 0 ==> db.PoolDB.cursor == 0
    {
      DisconnectTrims(db.rules, db.View(), true, rpc);
      ghost var before := heightStakeDB;
      r := db.DisconnectBlock(true, rpc);
      if r != Done {
        if Grounded(db.rules, node) {
          KnownCanDisconnect(db.rules, node, before, db.View(), true, rpc);
        }
        return;
      }
      heightStakeDB, heightTicketPool := |db.bestNode|, db.PoolDB.tip;
    }
    while heightTicketPool > heightStakeDB
      invariant db.Valid() && db.PoolDB.stored == old(db.PoolDB.stored) && db.PoolDB.diffDB == old(db.PoolDB.diffDB)
      invariant heightTicketPool == db.PoolDB.tip <= |diffs| && db.PoolDB.diffs == diffs[..db.PoolDB.tip]
      invariant heightTicketPool >= heightStakeDB
      invariant old(db.PoolDB.Faithful()) ==> db.PoolDB.Faithful()
      invariant old(db.PoolDB.cursor) == 0 ==> db.PoolDB.cursor == 0
      modifies db.PoolDB
    {
      ghost var before := db.PoolDB.diffs;
      var undo;
      heightTicketPool, undo := db.PoolDB.Trim();
      assert db.PoolDB.diffs == before[..|before| - 1];
    }
    r := Done;
  }

  /** NewStakeDatabase, for the stake node and the store found on disk. When it
      succeeds, both heights are the smaller of the two found, the pool is the fold
      of the diffs that are left, and the live cache is that of the stake node. */
  method NewStakeDatabase(rules: Rules, node: Node, store: DB, rpc: Rpc)
    returns (r: Outcome, db: StakeDatabase?, height: int, populated: bool)
    requires forall k :: k in store ==> |k| == KEY_SIZE
    ensures (forall n: nat :: !Contiguous(store, n)) ==> r == Panicked
    ensures r == Done ==>
      && db != null && fresh(db) && fresh(db.PoolDB) && db.Valid() && db.rules == rules
      && Contiguous(store, db.PoolDB.stored) && db.PoolDB.diffDB == store
      && height == |db.bestNode| == db.PoolDB.tip == db.PoolDB.cursor == Min(|node|, db.PoolDB.stored)
      && db.bestNode == node[..height]
      && Holds(store, db.PoolDB.diffs)
      && db.PoolDB.pool == PoolAt(db.PoolDB.diffs, height)
      && db.liveTicketCache == CacheOf(rpc.value, LiveTickets(rules, db.bestNode))
      && (populated <==> forall t :: t in LiveTickets(rules, db.bestNode) ==> rpc.value(t).Some?)
    ensures forall n: nat, diffs ::
      // Whatever the diffs are, it comes down to those up to the smaller height.
      (Contiguous(store, n) && CanRollBack(rules, node, n, rpc) && Holds(store, diffs) && |diffs| == Min(|node|, n))
      ==> (r == Done <==> ForwardChecks({}, diffs, 0, |diffs|))
    ensures forall n: nat ::
      // A stake node and a store that agree up to the smaller height, whichever is ahead.
      (Contiguous(store, n) && CanRollBack(rules, node, n, rpc)
       && Holds(store, DiffsOf(rules, node)[..Min(|node|, n)])
       && Accepted(rules, node) && Grounded(rules, node) && LotterySound(rules))
      ==> r == Done && |db.bestNode| == Min(|node|, n) && Settled(rules, rpc.value, db.View()) && db.PoolDB.Faithful()
  {
    hide Contiguous, Apply, Undo, Sum, LotterySound, Accepted, Grounded, Knows, SoundTo, WellFormed,
      PoolAt, Forward, FailedForward, ForwardChecks, DiffsOf, CanRollBack, Settled, Holds, LiveTickets;
    height, db, populated := -1, null, false;
    var pool := NewTicketPool(store);
    if pool == null {
      return Panicked, null, height, false;
    }
    ghost var loaded := pool.diffs;
    StoredUnique(store, |loaded|);
    db := new StakeDatabase(rules, node, pool);
    r := LevelHeights(db, rpc);
    if r != Done {
      return r, null, height, false;
    }
    HeldPrefix(store, loaded, pool.tip);
    HeldUnique(store, pool.diffs);
    if Accepted(rules, node) && Grounded(rules, node) && LotterySound(rules)
      && Holds(store, DiffsOf(rules, node)[..pool.tip])
    {
      LevelSettles(rules, node, pool.tip, rpc.value);
    }
    ForwardFromFold(pool.diffs, 0, pool.tip);
    NoneBelow(pool.diffs);
    var ok;
    height, ok := pool.AdvanceToTip();
    if !ok {
      return Failed, null, height, false;
    }
    populated := db.PopulateLiveTicketCache(rpc);
  }

  lemma HeldUnique(store: DB, diffs: seq<PoolDiff>)
    requires Holds(store, diffs)
    ensures forall other :: Holds(store, other) && |other| == |diffs| ==> other == diffs
  {
    hide Holds;
    forall other | Holds(store, other) && |other| == |diffs|
      ensures other == diffs
    {
      HeldDiffsUnique(store, other, diffs);
    }
  }

  /** The lower part of a node, with its own diffs: no diff fails its size check, and a
      database of that node with an empty block cache is settled. */
  lemma LevelSettles(rules: Rules, node: Node, n: nat, value: Hash -> Option<int>)
    requires n <= |node| && Accepted(rules, node) && Grounded(rules, node) && LotterySound(rules)
    ensures
      var upTo, diffs := node[..n], DiffsOf(rules, node)[..n];
      && SoundTo(diffs, n)
      && Settled(rules, value, Db(upTo, map[], CacheOf(value, LiveTickets(rules, upTo)), diffs))
  {
    hide Accepted, LotterySound, LiveTickets, SoundTo, DiffsOf, CacheOf;
    AcceptedPrefix(rules, node, n);
    GroundedPrefix(rules, node, n);
    DiffsOfPrefix(rules, node, n);
    AcceptedIsSound(rules, node[..n]);
  }

  // ------------------------------------------------------------------------
  // The pool in memory after a rewind
  // ------------------------------------------------------------------------

  /** The pool and its cursor when diff c, counted from 1, has failed its size check and
      all diffs down to just below it have been trimmed. */
  function Rewound(diffs: seq<PoolDiff>, c: nat): (set<Hash>, nat)
    requires 0 < c <= |diffs|
  {
    TrimRun(Forward({}, diffs, 0, c), diffs, c, c - 1)
  }

  /** Nothing was above the failing diff, and undoing it fails the size check as well:
      only then does the cursor stop just below it. */
  predicate StopsShort(diffs: seq<PoolDiff>, c: nat)
    requires 0 < c <= |diffs|
  {
    var top := PoolAt(diffs, c);
    c == |diffs| && !SizeOk(top, Undo(top, diffs[c - 1]), diffs[c - 1].Swap())
  }

  /** What it takes of the failing diff and of the one below it, over which trim moves
      the cursor too, for the pool to be that of its cursor. */
  predicate PoolSurvives(diffs: seq<PoolDiff>, c: nat)
    requires 0 < c <= |diffs|
  {
    if c == 1 || StopsShort(diffs, c) then Restorable(PoolAt(diffs, c - 1), diffs[c - 1])
    else RestorableThrough(PoolAt(diffs, c - 2), diffs[c - 2], diffs[c - 1])
  }

  /** Where a rewind past a failing diff leaves the cursor, and exactly when the pool is
      then the fold of the diffs below the cursor. */
  lemma RewoundExactly(diffs: seq<PoolDiff>, c: nat)
    requires 0 < c <= |diffs|
    ensures
      var (pool, cursor) := Rewound(diffs, c);
      && cursor == (if c == 1 then 0 else if StopsShort(diffs, c) then c - 1 else c - 2)
      && pool == Backward(PoolAt(diffs, c), diffs, c, cursor)
      && (pool == PoolAt(diffs, cursor) <==> PoolSurvives(diffs, c))
  {
    hide Apply, Undo, SizeOk, Restorable, RestorableThrough, Forward, TrimRun, Backward;
    ForwardFromFold(diffs, 0, c);
    var top, d := PoolAt(diffs, c), diffs[c - 1];
    var back := Undo(top, d);
    if |diffs| == c {
      OneTrim(top, diffs);
    } else {
      TwoTrims(top, diffs, c);
    }
    UndoRestoresExactly(PoolAt(diffs, c - 1), d);
    if c > 1 {
      TwoUndosRestoreExactly(PoolAt(diffs, c - 2), diffs[c - 2], d);
    }
  }

  /** Trimming one diff with the cursor on top of it. */
  lemma OneTrim(pool: set<Hash>, diffs: seq<PoolDiff>)
    requires diffs != []
    ensures
      var c := |diffs|;
      var back := Undo(pool, diffs[c - 1]);
      TrimRun(pool, diffs, c, c - 1) ==
      (if c == 1 then (back, 0)
       else if !SizeOk(pool, back, diffs[c - 1].Swap()) then (back, c - 1)
       else (Undo(back, diffs[c - 2]), c - 2))
      && Backward(pool, diffs, c, c - 1) == back
      && (c > 1 ==> Backward(pool, diffs, c, c - 2) == Undo(back, diffs[c - 2]))
  {
    hide Undo, SizeOk;
    var c := |diffs|;
    assert diffs[..c - 1][..c - 1] == diffs[..c - 1];
    assert Backward(pool, diffs, c, c) == pool;
    assert Backward(pool, diffs, c, c - 1) == Undo(pool, diffs[c - 1]);
  }

  /** With diffs above the cursor, it goes down one diff at each of the last two trims. */
  lemma TwoTrims(pool: set<Hash>, diffs: seq<PoolDiff>, c: nat)
    requires 0 < c < |diffs|
    ensures
      var back := Undo(pool, diffs[c - 1]);
      TrimRun(pool, diffs, c, c - 1) == (if c == 1 then (back, 0) else (Undo(back, diffs[c - 2]), c - 2))
      && Backward(pool, diffs, c, c - 1) == back
      && (c > 1 ==> Backward(pool, diffs, c, c - 2) == Undo(back, diffs[c - 2]))
  {
    hide Undo, SizeOk;
    var back := Undo(pool, diffs[c - 1]);
    var upper, lower := diffs[..c + 1], diffs[..c];
    TrimAbove(pool, diffs, c);
    TrimRunCompose(pool, diffs, c, c + 1, c - 1);
    NextTrim(pool, upper, c, c - 1, c - 1);
    assert upper[..c] == lower && upper[c - 1] == diffs[c - 1];
    if c == 1 {
      NextTrim(back, lower, 0, 0, 0);
    } else {
      NextTrim(back, lower, c - 1, c - 2, c - 1);
    }
    assert Backward(pool, diffs, c, c) == pool;
    assert Backward(pool, diffs, c, c - 1) == back;
  }

  /** One trim that takes the cursor down by one, or leaves it at genesis. */
  lemma NextTrim(pool: set<Hash>, diffs: seq<PoolDiff>, cursor: nat, target: nat, to: nat)
    requires 0 < |diffs| && to < |diffs| && target == TrimTarget(|diffs| - 1)
    requires cursor == target + 1 <= |diffs| || cursor == target == 0
    ensures
      var next := if cursor > target then Undo(pool, diffs[target]) else pool;
      && TrimRun(pool, diffs, cursor, to) == TrimRun(next, diffs[..|diffs| - 1], target, to)
      && (to == |diffs| - 1 ==> TrimRun(pool, diffs, cursor, to) == (next, target))
  {
    hide Undo, SizeOk;
    assert RetreatEnd(pool, diffs, cursor, target) == target;
    assert Backward(pool, diffs, cursor, cursor) == pool;
  }

  lemma {:induction false} TrimAbove(pool: set<Hash>, diffs: seq<PoolDiff>, c: nat)
    requires c < |diffs|
    ensures TrimRun(pool, diffs, c, c + 1) == (pool, c)
    decreases |diffs|
  {
    if |diffs| > c + 1 {
      assert Backward(pool, diffs, c, c) == pool;
      TrimAbove(pool, diffs[..|diffs| - 1], c);
    }
  }

  /** One diff more, with the pools before and after it. */
  lemma ForwardOne(diffs: seq<PoolDiff>, n: nat, before: set<Hash>, after: set<Hash>)
    requires n < |diffs| && PoolAt(diffs, n) == before && Apply(before, diffs[n]) == after
    ensures PoolAt(diffs, n + 1) == after
    ensures (ForwardChecks({}, diffs, 0, n + 1) <==>
             ForwardChecks({}, diffs, 0, n) && SizeOk(before, after, diffs[n]))
  {
    hide Apply, SizeOk;
    ForwardFromFold(diffs, 0, n);
    ForwardFromFold(diffs, 0, n + 1);
  }

  /** A failing diff that is not restorable, and still the pool survives: the diff below
      brought the very ticket. */
  lemma UnrestorableSurvives(t: Hash)
    ensures
      var d := PoolDiff([t], []);
      && FailedForward({}, [d, d], 0, 2)
      && !Restorable(PoolAt([d, d], 1), d)
      && Rewound([d, d], 2) == ({}, 0) && PoolAt([d, d], 0) == {}
  {
    hide Elems, ForwardChecks, PoolAt, TrimRun, Backward;
    var d := PoolDiff([t], []);
    var diffs := [d, d];
    SmallElems(t);
    NoneBelow(diffs);
    ForwardOne(diffs, 0, {}, {t});
    ForwardOne(diffs, 1, {t}, {t});
    RewoundExactly(diffs, 2);
    assert !StopsShort(diffs, 2);
  }

  lemma NoneBelow(diffs: seq<PoolDiff>)
    ensures PoolAt(diffs, 0) == {} && (diffs != [] ==> ForwardChecks({}, diffs, 0, 0))
  {
  }

  /** A failing diff that is restorable, and still the pool does not survive: the diff
      below it passed its check with a fault on either side. */
  lemma RestorableDoesNotSurvive(a: Hash, b: Hash, c: Hash)
    requires a != b && b != c && c != a
    ensures
      var diffs := [PoolDiff([a], []), PoolDiff([a], [b]), PoolDiff([c, c], []), EMPTY_DIFF];
      && FailedForward({}, diffs, 0, 3)
      && Restorable(PoolAt(diffs, 2), diffs[2])
      && Rewound(diffs, 3).1 == 1 && Rewound(diffs, 3).0 != PoolAt(diffs, 1)
  {
    hide Elems, ForwardChecks, PoolAt, TrimRun, Backward, Forward;
    var diffs := [PoolDiff([a], []), PoolDiff([a], [b]), PoolDiff([c, c], []), EMPTY_DIFF];
    SmallElems(a);
    SmallElems(b);
    SmallElems(c);
    NoneBelow(diffs);
    ForwardOne(diffs, 0, {}, {a});
    ForwardOne(diffs, 1, {a}, {a});
    ForwardOne(diffs, 2, {a}, {a, c});
    RewoundExactly(diffs, 3);
    assert !Restorable({a}, diffs[1]);
  }

  lemma SmallElems(t: Hash)
    ensures Elems<Hash>([]) == {} && Elems([t]) == {t} && Elems([t, t]) == {t}
  {
  }

  /** The last part of LoadAndRecover: all diffs are applied to the empty pool, and
      if one fails its size check both databases are rewound to just below it. */
  method AdvanceOrRewind(db: StakeDatabase, rpc: Rpc) returns (r: Outcome)
    requires db.Valid() && db.PoolDB.Faithful() && db.PoolDB.cursor == 0
    requires |db.bestNode| == db.PoolDB.tip
    modifies db, db.PoolDB
    ensures db.Valid() && db.PoolDB.stored == old(db.PoolDB.stored) && db.PoolDB.diffDB == old(db.PoolDB.diffDB)
    ensures r == Done ==>
      && |db.bestNode| == db.PoolDB.tip <= old(db.PoolDB.tip)
      && db.bestNode == old(db.bestNode)[..|db.bestNode|]
      && db.PoolDB.diffs == old(db.PoolDB.diffs)[..|db.bestNode|]
      && RecoveredFrom(old(db.PoolDB.diffs), |db.bestNode|, db.PoolDB.pool, db.PoolDB.cursor)
    ensures r == Done && |db.bestNode| == old(|db.bestNode|) ==>
      db.PoolDB.cursor == db.PoolDB.tip && db.PoolDB.pool == PoolAt(db.PoolDB.diffs, db.PoolDB.tip)
    ensures forall ended ::
      EndsAt(old(db.PoolDB.diffs), ended) && CanRollBack(db.rules, old(db.bestNode), ended, rpc) ==>
        r == Done && |db.bestNode| == ended
    ensures CanRollBack(db.rules, old(db.bestNode), 0, rpc) ==> r == Done
  {
    hide Contiguous, Holds, Apply, Undo, Sum, Grounded, Knows, SoundTo, Forward, ForwardChecks, CacheOf;
    hide TrimRun, PoolSurvives;
    var pool := db.PoolDB;
    ForwardFromFold(pool.diffs, 0, pool.tip);
    EndsOnce(pool.diffs);
    var stopHeight, ok := pool.AdvanceToTip();
    if !ok {
      RewoundExactly(pool.diffs, stopHeight);
      assert EndsAt(pool.diffs, stopHeight - 1);
      r := db.Rewind(stopHeight - 1, true, rpc);
    } else {
      r := Done;
    }
  }

  /** All diffs apply, and that is where it ended; or else it ended just below the
      first of them that fails its size check. */
  ghost predicate EndsAt(diffs: seq<PoolDiff>, ended: int) {
    if ForwardChecks({}, diffs, 0, |diffs|) then ended == |diffs|
    else 0 <= ended < |diffs| && FailedForward({}, diffs, 0, ended + 1)
  }

  lemma EndsOnce(diffs: seq<PoolDiff>)
    ensures forall a, b :: EndsAt(diffs, a) && EndsAt(diffs, b) ==> a == b
  {
    hide ForwardChecks;
    forall a, b | EndsAt(diffs, a) && EndsAt(diffs, b)
      ensures a == b
    {
      if a < b {
        ForwardChecksPrefix({}, diffs, 0, a + 1, b);
      } else if b < a {
        ForwardChecksPrefix({}, diffs, 0, b + 1, a);
      }
    }
  }

  /** Where recovery ended, and with what in memory. The pool is the fold of the diffs
      below its cursor exactly if no diff failed or the pool survived the rewind. */
  ghost predicate RecoveredFrom(diffs: seq<PoolDiff>, ended: int, pool: set<Hash>, cursor: int) {
    && EndsAt(diffs, ended)
    && 0 <= cursor <= ended
    && (pool, cursor as nat) == (if ended == |diffs| then (PoolAt(diffs, ended), ended) else Rewound(diffs, ended + 1))
    && (pool == PoolAt(diffs, cursor) <==> ended == |diffs| || PoolSurvives(diffs, ended + 1))
  }

  /** The first part of LoadAndRecover: both databases go back to the wanted height. */
  method LevelAndRewind(db: StakeDatabase, toHeight: int, rpc: Rpc) returns (r: Outcome)
    requires db.Valid() && db.PoolDB.Faithful() && db.PoolDB.cursor == 0
    requires 0 <= toHeight <= |db.bestNode| && toHeight <= db.PoolDB.tip
    modifies db, db.PoolDB
    ensures db.Valid() && db.PoolDB.stored == old(db.PoolDB.stored) && db.PoolDB.diffDB == old(db.PoolDB.diffDB)
    ensures db.PoolDB.Faithful() && db.PoolDB.cursor == 0
    ensures r == Done ==>
      && |db.bestNode| == db.PoolDB.tip == toHeight
      && db.bestNode == old(db.bestNode)[..toHeight]
      && db.PoolDB.diffs == old(db.PoolDB.diffs)[..toHeight]
    ensures CanRollBack(db.rules, old(db.bestNode), toHeight, rpc) ==> r == Done
  {
    hide Contiguous, Holds, Apply, Undo, Sum, Grounded, Knows, SoundTo, PoolAt, TrimRun;
    ghost var node, diffs := db.bestNode, db.PoolDB.diffs;
    RollsBackHigher(db.rules, node, rpc);
    r := LevelHeights(db, rpc);
    if r != Done {
      return;
    }
    ghost var level := |db.bestNode|;
    PrefixRollsBack(db.rules, node, level, toHeight, rpc);
    r := db.Rewind(toHeight, true, rpc);
    if r == Done {
      assert db.bestNode == node[..level][..toHeight] == node[..toHeight];
      assert db.PoolDB.diffs == diffs[..level][..toHeight] == diffs[..toHeight];
    }
  }

  /** LoadAndRecover: levels the two, rewinds both to the wanted height as far as
      there is one, and applies all diffs. When a diff fails its size check, both are
      rewound to just below it. */
  method LoadAndRecover(rules: Rules, node: Node, store: DB, wanted: int, rpc: Rpc)
    returns (r: Outcome, db: StakeDatabase?, populated: bool)
    requires forall k :: k in store ==> |k| == KEY_SIZE
    ensures (forall n: nat :: !Contiguous(store, n)) ==> r == Panicked
    ensures r == Done ==>
      && db != null && fresh(db) && fresh(db.PoolDB) && db.Valid() && db.rules == rules
      && Contiguous(store, db.PoolDB.stored) && db.PoolDB.diffDB == store
      && |db.bestNode| == db.PoolDB.tip <= |node|
      && db.bestNode == node[..|db.bestNode|]
      && Holds(store, db.PoolDB.diffs)
      && db.liveTicketCache == CacheOf(rpc.value, LiveTickets(rules, db.bestNode))
      && (populated <==> forall t :: t in LiveTickets(rules, db.bestNode) ==> rpc.value(t).Some?)
      && Recovered(store, RecoveryHeight(wanted, |node|, db.PoolDB.stored), |db.bestNode|,
                   db.PoolDB.pool, db.PoolDB.cursor)
    ensures r == Done && |db.bestNode| == RecoveryHeight(wanted, |node|, db.PoolDB.stored) ==>
      db.PoolDB.cursor == |db.bestNode| && db.PoolDB.pool == PoolAt(db.PoolDB.diffs, |db.bestNode|)
    ensures
      // Whatever is wrong with the diffs, and however far apart the two are.
      ((exists n: nat :: Contiguous(store, n)) && Grounded(rules, node) && KnowsAll(rules, node, rpc)) ==> r == Done
    ensures forall n: nat, diffs, ended ::
      // It takes no more than the blocks that have to go.
      Contiguous(store, n) && Holds(store, diffs) && |diffs| == RecoveryHeight(wanted, |node|, n)
      && EndsAt(diffs, ended) && CanRollBack(rules, node, ended, rpc) ==>
        r == Done && |db.bestNode| == ended
  {
    hide Contiguous, Apply, Undo, Sum, LotterySound, Accepted, Grounded, Knows, SoundTo, WellFormed,
      PoolAt, DiffsOf, Holds, CacheOf, EndsAt, RecoveredFrom, TrimRun, LiveTickets, KnowsAll, CanRollBack;
    db, populated := null, false;
    var pool := NewTicketPool(store);
    if pool == null {
      return Panicked, null, false;
    }
    ghost var loaded := pool.diffs;
    StoredUnique(store, |loaded|);
    db := new StakeDatabase(rules, node, pool);
    var toHeight := if wanted < 0 then 0 else wanted;
    toHeight := Min(Min(toHeight, |node|), pool.tip);
    RollsBackHigher(rules, node, rpc);
    EndsBelow();
    r := LevelAndRewind(db, toHeight, rpc);
    if r != Done {
      return r, null, false;
    }
    ghost var h := |db.bestNode|;
    assert h == RecoveryHeight(wanted, |node|, |loaded|);
    assert pool.diffs == loaded[..h];
    HeldPrefix(store, loaded, h);
    assert db.bestNode == node[..h];
    HeldUnique(store, pool.diffs);
    assert forall ended :: CanRollBack(rules, node, ended, rpc) ==> CanRollBack(rules, db.bestNode, ended, rpc) by {
      forall ended
        ensures CanRollBack(rules, node, ended, rpc) ==> CanRollBack(rules, db.bestNode, ended, rpc)
      {
        PrefixRollsBack(rules, node, h, ended, rpc);
      }
    }
    r := AdvanceOrRewind(db, rpc);
    if r != Done {
      return r, null, false;
    }
    HeldPrefix(store, loaded, |db.bestNode|);
    assert Recovered(store, h, |db.bestNode|, pool.pool, pool.cursor) by {
      assert Holds(store, loaded[..h]);
    }
    populated := db.PopulateLiveTicketCache(rpc);
  }

  /** It is the wanted height, but not below genesis nor above either height found. */
  lemma RecoveryHeightIs(wanted: int, nodeHeight: nat, poolTip: nat)
    ensures
      var h := RecoveryHeight(wanted, nodeHeight, poolTip);
      && 0 <= h <= nodeHeight && h <= poolTip && (wanted >= 0 ==> h <= wanted)
      && (h == 0 || h == wanted || h == nodeHeight || h == poolTip)
      && (h == 0 ==> wanted <= 0 || nodeHeight == 0 || poolTip == 0)
  {
  }

  /** The height LoadAndRecover aims at. */
  function RecoveryHeight(wanted: int, nodeHeight: int, poolTip: int): int {
    Min(Min(if wanted < 0 then 0 else wanted, nodeHeight), poolTip)
  }

  /** Recovery of the first h diffs on disk ended at the height it should. */
  ghost predicate Recovered(store: DB, h: int, ended: int, pool: set<Hash>, cursor: int) {
    exists diffs: seq<PoolDiff> :: Holds(store, diffs) && |diffs| == h && RecoveredFrom(diffs, ended, pool, cursor)
  }

  lemma PrefixRollsBack(rules: Rules, node: Node, n: nat, height: int, rpc: Rpc)
    requires n <= |node|
    ensures CanRollBack(rules, node, height, rpc) ==> CanRollBack(rules, node[..n], height, rpc)
  {
    hide Grounded, Knows;
    if CanRollBack(rules, node, height, rpc) && 0 <= height < n {
      GroundedPrefix(rules, node, n);
      forall h | height <= h <= n
        ensures Knows(rules, node[..n], h, rpc)
      {
        KnowsPrefix(rules, node, n, h, rpc);
        assert Knows(rules, node, h, rpc);
      }
    }
  }

  /** What rolls back to a height rolls back to any above it. */
  lemma RollsBackHigher(rules: Rules, node: Node, rpc: Rpc)
    ensures forall a, b :: 0 <= a <= b && CanRollBack(rules, node, a, rpc) ==> CanRollBack(rules, node, b, rpc)
    ensures Grounded(rules, node) && KnowsAll(rules, node, rpc) ==> CanRollBack(rules, node, 0, rpc)
  {
    hide Grounded, Knows;
  }

  lemma EndsBelow()
    ensures forall diffs, ended :: EndsAt(diffs, ended) ==> 0 <= ended <= |diffs|
  {
    hide ForwardChecks;
  }

  lemma HeldPrefix(store: DB, diffs: seq<PoolDiff>, n: nat)
    requires Holds(store, diffs) && n <= |diffs|
    ensures Holds(store, diffs[..n])
  {
  }

  /** A contiguous store has one greatest height. */
  lemma StoredUnique(store: DB, n: nat)
    requires Contiguous(store, n)
    ensures forall m: nat :: Contiguous(store, m) ==> m == n
  {
    forall m: nat | Contiguous(store, m)
      ensures m == n
    {
      if m != n {
        var top := if m < n then n else m;
        KeyRoundTrip(top);
      }
    }
  }
}
