/** The live ticket pool (stakedb/ticketpool.go): a list of diffs, a cursor that
    moves over it, the pool at the cursor, and an on-disk copy that is appended to
    but never trimmed. */
module TicketPools {
  import opened Common
  import opened PoolDiffs
  import opened DiffStore

  const MAX_INT64 := 0x7FFF_FFFF_FFFF_FFFF

  /** Every size check passes while diffs[i..j] are applied to pool. */
  ghost predicate ForwardChecks(pool: set<Hash>, diffs: seq<PoolDiff>, i: nat, j: nat)
    requires i <= j <= |diffs|
  {
    i == j
    || (ForwardChecks(pool, diffs, i, j - 1)
        && SizeOk(Forward(pool, diffs, i, j - 1), Forward(pool, diffs, i, j), diffs[j - 1]))
  }

  /** Every size check passes while diffs[lo..hi] are undone from pool. */
  ghost predicate BackwardChecks(pool: set<Hash>, diffs: seq<PoolDiff>, hi: nat, lo: nat)
    requires lo <= hi <= |diffs|
    decreases hi - lo
  {
    hi == lo
    || (BackwardChecks(pool, diffs, hi, lo + 1)
        && SizeOk(Backward(pool, diffs, hi, lo + 1), Backward(pool, diffs, hi, lo), diffs[lo].Swap()))
  }

  /** The last step of a move to cursor c failed its size check, the others passed. */
  ghost predicate FailedForward(pool: set<Hash>, diffs: seq<PoolDiff>, i: nat, c: nat)
    requires i <= c <= |diffs|
  {
    i < c && ForwardChecks(pool, diffs, i, c - 1) && !ForwardChecks(pool, diffs, i, c)
  }

  ghost predicate FailedBackward(pool: set<Hash>, diffs: seq<PoolDiff>, hi: nat, c: nat)
    requires c <= hi <= |diffs|
  {
    c < hi && BackwardChecks(pool, diffs, hi, c + 1) && !BackwardChecks(pool, diffs, hi, c)
  }

  /** On sound diffs no forward step can fail. */
  lemma {:induction false} SoundForward(pool: set<Hash>, diffs: seq<PoolDiff>, i: nat, j: nat)
    requires i <= j <= |diffs| && SoundTo(diffs, j) && pool == PoolAt(diffs, i)
    ensures ForwardChecks(pool, diffs, i, j)
    ensures Forward(pool, diffs, i, j) == PoolAt(diffs, j)
  {
    hide Apply, Undo, WellFormed, SizeOk;
    if i < j {
      SoundForward(pool, diffs, i, j - 1);
      UndoStep(diffs, j - 1);
    }
  }

  /** On sound diffs no backward step can fail. */
  lemma {:induction false} SoundBackward(pool: set<Hash>, diffs: seq<PoolDiff>, hi: nat, lo: nat)
    requires lo <= hi <= |diffs| && SoundTo(diffs, hi) && pool == PoolAt(diffs, hi)
    ensures BackwardChecks(pool, diffs, hi, lo)
    ensures Backward(pool, diffs, hi, lo) == PoolAt(diffs, lo)
    decreases hi - lo
  {
    hide Apply, Undo, WellFormed, SizeOk;
    if lo < hi {
      SoundBackward(pool, diffs, hi, lo + 1);
      UndoStep(diffs, lo);
    }
  }

  /** A move all of whose checks pass has no failed step before it. */
  lemma {:induction false} ForwardChecksPrefix(pool: set<Hash>, diffs: seq<PoolDiff>, i: nat, k: nat, j: nat)
    requires i <= k <= j <= |diffs| && ForwardChecks(pool, diffs, i, j)
    ensures ForwardChecks(pool, diffs, i, k)
  {
    hide SizeOk, Forward;
    if k < j {
      ForwardChecksPrefix(pool, diffs, i, k, j - 1);
    }
  }

  /** The cursor after retreatTo: the height, unless a size check fails on the way. The
      step that fails is made all the same. */
  function RetreatEnd(pool: set<Hash>, diffs: seq<PoolDiff>, from: nat, height: nat): (end: nat)
    requires from <= |diffs|
    ensures if from <= height then end == from else height <= end < from
    decreases from
  {
    if from <= height then from
    else
      var next := Undo(pool, diffs[from - 1]);
      if SizeOk(pool, next, diffs[from - 1].Swap()) then RetreatEnd(next, diffs, from - 1, height) else from - 1
  }

  /** The cursor below which trim takes the pool: one below the new tip. */
  function TrimTarget(newTip: nat): nat {
    if newTip == 0 then 0 else newTip - 1
  }

  /** The pool and its cursor after trimming diff by diff down to a tip. */
  function TrimRun(pool: set<Hash>, diffs: seq<PoolDiff>, cursor: nat, to: nat): (end: (set<Hash>, nat))
    requires cursor <= |diffs|
    ensures end.1 <= cursor && (to <= |diffs| ==> end.1 <= to)
    decreases |diffs|
  {
    if |diffs| <= to then (pool, cursor)
    else
      var c := RetreatEnd(pool, diffs, cursor, TrimTarget(|diffs| - 1));
      TrimRun(Backward(pool, diffs, cursor, c), diffs[..|diffs| - 1], c, to)
  }

  lemma {:induction false} TrimRunCompose(pool: set<Hash>, diffs: seq<PoolDiff>, cursor: nat, mid: nat, to: nat)
    requires cursor <= |diffs| && to <= mid <= |diffs|
    ensures
      var (p, c) := TrimRun(pool, diffs, cursor, mid);
      TrimRun(p, diffs[..mid], c, to) == TrimRun(pool, diffs, cursor, to)
    decreases |diffs|
  {
    hide RetreatEnd, Backward;
    if mid == |diffs| {
      assert diffs[..mid] == diffs;
    } else {
      var c := RetreatEnd(pool, diffs, cursor, TrimTarget(|diffs| - 1));
      var shorter := diffs[..|diffs| - 1];
      assert shorter[..mid] == diffs[..mid];
      TrimRunCompose(Backward(pool, diffs, cursor, c), shorter, c, mid, to);
    }
  }

  /** One trim: the cursor goes as far back as the size checks let it. */
  lemma TrimOnce(pool: set<Hash>, diffs: seq<PoolDiff>, cursor: nat)
    requires cursor <= |diffs| && diffs != []
    ensures
      var c := RetreatEnd(pool, diffs, cursor, TrimTarget(|diffs| - 1));
      TrimRun(pool, diffs, cursor, |diffs| - 1) == (Backward(pool, diffs, cursor, c), c)
    ensures Backward(pool, diffs, cursor, cursor) == pool && BackwardChecks(pool, diffs, cursor, cursor)
    ensures cursor <= TrimTarget(|diffs| - 1) ==> RetreatEnd(pool, diffs, cursor, TrimTarget(|diffs| - 1)) == cursor
  {
    hide SizeOk, Undo;
    var c := RetreatEnd(pool, diffs, cursor, TrimTarget(|diffs| - 1));
    TrimRunNone(Backward(pool, diffs, cursor, c), diffs[..|diffs| - 1], c);
  }

  lemma {:induction false} SoundRetreat(pool: set<Hash>, diffs: seq<PoolDiff>, from: nat, height: nat)
    requires from <= |diffs| && SoundTo(diffs, from) && pool == PoolAt(diffs, from)
    ensures RetreatEnd(pool, diffs, from, height) == if from <= height then from else height
    decreases from
  {
    hide Apply, Undo, WellFormed, SizeOk;
    if from > height {
      UndoStep(diffs, from - 1);
      SoundRetreat(PoolAt(diffs, from - 1), diffs, from - 1, height);
    }
  }

  /** On sound diffs a trim leaves the fold of the diffs below the cursor. */
  lemma SoundTrim(pool: set<Hash>, diffs: seq<PoolDiff>, cursor: nat)
    requires cursor <= |diffs| && diffs != [] && SoundTo(diffs, cursor) && pool == PoolAt(diffs, cursor)
    ensures
      var target := TrimTarget(|diffs| - 1);
      var c := RetreatEnd(pool, diffs, cursor, target);
      var shorter := diffs[..|diffs| - 1];
      && c == (if cursor <= target then cursor else target)
      && SoundTo(shorter, c) && Backward(pool, diffs, cursor, c) == PoolAt(shorter, c)
  {
    hide Apply, Undo, WellFormed, SizeOk, PoolAt, Backward;
    var target := TrimTarget(|diffs| - 1);
    SoundRetreat(pool, diffs, cursor, target);
    var c := RetreatEnd(pool, diffs, cursor, target);
    SoundBackward(pool, diffs, cursor, c);
    PoolAtPrefix(diffs, diffs[..|diffs| - 1], c);
    SoundToPrefix(diffs, diffs[..|diffs| - 1], c);
  }

  lemma HeldWithoutLast(db: DB, diffs: seq<PoolDiff>)
    requires Holds(db, diffs) && diffs != []
    ensures Holds(db, diffs[..|diffs| - 1])
  {
  }

  lemma TrimRunNone(pool: set<Hash>, diffs: seq<PoolDiff>, cursor: nat)
    requires cursor <= |diffs|
    ensures TrimRun(pool, diffs, cursor, |diffs|) == (pool, cursor)
  {
  }

  /** Whether advance found a diff to apply, and one that passed its size check. */
  datatype Move = Moved | SizeMismatch | AtTip | OutOfRange

  class TicketPool {
    var cursor: int
    var tip: int
    var diffs: seq<PoolDiff>
    var pool: set<Hash>
    var diffDB: DB
    ghost var stored: nat  // the greatest height on disk

    /** The cursor never points outside the diffs, the tip counts them, and the
        disk holds them all, possibly followed by stale ones. */
    ghost predicate Valid()
      reads this
    {
      0 <= cursor <= tip && tip == |diffs| && Stored()
    }

    ghost predicate Stored()
      reads this
    {
      |diffs| <= stored && Contiguous(diffDB, stored) && Holds(diffDB, diffs)
    }

    /** The materialised pool is the fold of the diffs before the cursor, all of
        them well formed. */
    ghost predicate Faithful()
      requires 0 <= cursor <= |diffs|
      reads this
    {
      pool == PoolAt(diffs, cursor) && SoundTo(diffs, cursor)
    }

    /** NewTicketPool, after the key-value store has been opened. */
    constructor (db: DB, loaded: seq<PoolDiff>)
      requires Contiguous(db, |loaded|) && Holds(db, loaded)
      ensures Valid() && Faithful()
      ensures cursor == 0 && diffs == loaded && diffDB == db && stored == |loaded|
    {
      cursor, tip, diffs, pool := 0, |loaded|, loaded, {};
      diffDB, stored := db, |loaded|;
    }

    /** append: one more diff in memory, and a tip one higher. */
    method AppendDiff(diff: PoolDiff)
      modifies `tip, `diffs
      ensures tip == old(tip) + 1 && diffs == old(diffs) + [diff]
    {
      tip := tip + 1;
      diffs := diffs + [diff];
    }

    method StoreDiff(diff: PoolDiff, height: int)
      requires 0 <= height <= MAX_INT64
      modifies `diffDB
      ensures diffDB == old(diffDB)[KeyOf(height) := diff]
    {
      diffDB := diffDB[KeyOf(height) := diff];
    }

    /** Append adds the diff of the next height, in memory and on disk; a diff of
        any other height changes nothing. */
    method Append(diff: PoolDiff, height: int) returns (ok: bool)
      requires Valid() && tip < MAX_INT64
      modifies `tip, `diffs, `diffDB, `stored
      ensures Valid()
      ensures ok <==> height == old(tip) + 1
      ensures diffs == if ok then old(diffs) + [diff] else old(diffs)
      ensures stored == if ok && old(tip == stored) then old(stored) + 1 else old(stored)
      ensures old(Faithful()) ==> Faithful()
    {
      hide Apply, WellFormed, PoolAt, Contiguous, Holds, SoundTo;
      if height != tip + 1 {
        return false;
      }
      StoreKeepsDisk(diffDB, stored, diffs, diff);
      AppendDiff(diff);
      StoreDiff(diff, height);
      stored := if height <= stored then stored else height;
      if old(Faithful()) {
        PoolAtPrefix(old(diffs), diffs, cursor);
        SoundToPrefix(old(diffs), diffs, cursor);
      }
      return true;
    }

    /** AppendAndAdvancePool moves the cursor one diff forward from wherever it is,
        which is to the new tip only if it was at the old one. */
    method AppendAndAdvancePool(diff: PoolDiff, height: int) returns (ok: bool)
      requires Valid() && tip < MAX_INT64
      modifies `tip, `diffs, `diffDB, `stored, `cursor, `pool
      ensures Valid()
      ensures height != old(tip) + 1 ==>
        !ok && diffs == old(diffs) && cursor == old(cursor) && pool == old(pool)
      ensures height == old(tip) + 1 ==>
        && diffs == old(diffs) + [diff] && cursor == old(cursor) + 1
        && pool == Apply(old(pool), diffs[old(cursor)])
        && (ok <==> SizeOk(old(pool), pool, diffs[old(cursor)]))
      ensures old(Faithful()) && (height == old(tip) + 1 ==> WellFormed(old(pool), diffs[old(cursor)])) ==>
        Faithful() && (ok <==> height == old(tip) + 1)
    {
      hide Apply, Undo, WellFormed, SizeOk, PoolAt, Contiguous, Holds, SoundTo;
      if height != tip + 1 {
        return false;
      }
      StoreKeepsDisk(diffDB, stored, diffs, diff);
      AppendDiff(diff);
      StoreDiff(diff, height);
      stored := if height <= stored then stored else height;
      if old(Faithful()) {
        PoolAtPrefix(old(diffs), diffs, cursor);
        SoundToPrefix(old(diffs), diffs, cursor);
        NextSound(diffs, cursor);
      }
      var move := Advance();
      ok := move == Moved;
    }

    /** A well formed diff takes the fold one further, and passes its size check. */
    lemma NextSound(diffs: seq<PoolDiff>, n: nat)
      requires n < |diffs| && SoundTo(diffs, n)
      ensures PoolAt(diffs, n + 1) == Apply(PoolAt(diffs, n), diffs[n])
      ensures (WellFormed(PoolAt(diffs, n), diffs[n]) ==>
                 SoundTo(diffs, n + 1) && SizeOk(PoolAt(diffs, n), PoolAt(diffs, n + 1), diffs[n]))
    {
      hide Apply, Undo, WellFormed, SizeOk;
      PoolAtNext(diffs, n);
      if WellFormed(PoolAt(diffs, n), diffs[n]) {
        UndoStep(diffs, n);
      }
    }

    /** trim removes the end diff, first moving the cursor back below it. The error
        of that move is only logged, and the cursor is within the diffs even then. */
    method Trim() returns (newTip: int, undo: PoolDiff)
      requires Valid()
      modifies `tip, `diffs, `cursor, `pool
      ensures Valid() && newTip == tip
      ensures old(tip) == 0 ==>
        undo == EMPTY_DIFF && diffs == [] && cursor == 0 && pool == old(pool)
      ensures old(tip) > 0 ==>
        && old(diffs) == diffs + [undo]
        && cursor <= old(cursor)
        && pool == Backward(old(pool), old(diffs), old(cursor), cursor)
        && ((cursor == (if old(cursor) <= MaxCursor() then old(cursor) else MaxCursor())
             && BackwardChecks(old(pool), old(diffs), old(cursor), cursor))
            || FailedBackward(old(pool), old(diffs), old(cursor), cursor))
        && (pool, cursor) == TrimRun(old(pool), old(diffs), old(cursor), tip)
      ensures old(Faithful()) ==>
        Faithful() && cursor == if old(cursor) <= MaxCursor() then old(cursor) else MaxCursor()
      ensures stored == old(stored) && diffDB == old(diffDB)
    {
      hide Apply, Undo, WellFormed, SizeOk, PoolAt, Contiguous, RetreatEnd, Holds, SoundTo, BackwardChecks,
        FailedBackward, Backward, TrimRun;
      if tip == 0 || |diffs| == 0 {
        return tip, EMPTY_DIFF;
      }
      TrimOnce(pool, diffs, cursor);
      HeldWithoutLast(diffDB, diffs);
      tip := tip - 1;
      var newMaxCursor := MaxCursor();
      if cursor > newMaxCursor {
        var _ := RetreatTo(newMaxCursor);
      }
      undo := diffs[|diffs| - 1];
      diffs := diffs[..|diffs| - 1];
      newTip := tip;
      if old(Faithful()) {
        SoundTrim(old(pool), old(diffs), old(cursor));
      }
    }

    /** CurrentPool lists the tickets of the pool, each once, in any order. */
    method CurrentPool() returns (tickets: seq<Hash>, height: int)
      ensures Elems(tickets) == pool && NoDup(tickets) && height == cursor
    {
      tickets := [];
      var rest := pool;
      while rest != {}
        invariant Elems(tickets) + rest == pool && Elems(tickets) !! rest
        invariant NoDup(tickets)
        decreases rest
      {
        var h :| h in rest;
        assert h !in Elems(tickets);
        ElemsConcat(tickets, [h]);
        tickets, rest := tickets + [h], rest - {h};
      }
      height := cursor;
    }

    /** Pool moves the cursor to the height and lists the tickets live there. On
        sound diffs it succeeds for every height up to the tip, wherever the cursor
        was, and lists the fold of exactly that many diffs. */
    method Pool(height: int) returns (ok: bool, tickets: seq<Hash>)
      requires Valid()
      modifies `cursor, `pool
      ensures Valid()
      ensures height > tip ==> !ok && cursor == old(cursor) && pool == old(pool)
      ensures old(cursor) <= height <= tip ==>
        && old(cursor) <= cursor <= height
        && pool == Forward(old(pool), diffs, old(cursor), cursor)
        && (ok <==> cursor == height && ForwardChecks(old(pool), diffs, old(cursor), cursor))
        && (!ok ==> FailedForward(old(pool), diffs, old(cursor), cursor))
      ensures height < old(cursor) ==>
        && height <= cursor <= old(cursor)
        && pool == Backward(old(pool), diffs, old(cursor), cursor)
        && (ok <==> cursor == height && BackwardChecks(old(pool), diffs, old(cursor), cursor))
        && (!ok ==> (height < 0 && cursor == 0) || FailedBackward(old(pool), diffs, old(cursor), cursor))
      ensures ok ==> cursor == height && Elems(tickets) == pool && NoDup(tickets)
      ensures old(Faithful()) && height <= tip && (height > old(cursor) ==> SoundTo(diffs, height)) ==>
        && Faithful()
        && (ok <==> height >= 0)
        && (ok ==> Elems(tickets) == PoolAt(diffs, height))
    {
      hide Apply, Undo, WellFormed, PoolAt, Contiguous, Holds, Elems, NoDup, SoundTo;
      if height > tip {
        return false, [];
      }
      ghost var from, start := cursor, pool;
      while height > cursor
        invariant Valid() && from <= cursor && cursor <= (if from <= height then height else from)
        invariant pool == Forward(start, diffs, from, cursor)
        invariant ForwardChecks(start, diffs, from, cursor)
      {
        var move := Advance();
        ok := move == Moved;
        if !ok {
          ProveFaithfulForward(from, start, height);
          return false, [];
        }
      }
      while cursor > height
        invariant Valid() && (from <= height ==> cursor == height)
        invariant from > height ==> height <= cursor <= from
        invariant from > height ==> pool == Backward(start, diffs, from, cursor)
        invariant from > height ==> BackwardChecks(start, diffs, from, cursor)
        invariant from <= height ==> pool == Forward(start, diffs, from, cursor)
        invariant from <= height ==> ForwardChecks(start, diffs, from, cursor)
        decreases cursor - height
      {
        ok := Retreat();
        if !ok {
          ProveFaithfulBackward(from, start);
          return false, [];
        }
      }
      if from <= height {
        ProveFaithfulForward(from, start, height);
      } else {
        ProveFaithfulBackward(from, start);
      }
      var at: int;
      tickets, at := CurrentPool();
      ok := true;
    }

    lemma ProveFaithfulForward(from: nat, start: set<Hash>, height: nat)
      requires Valid() && from <= cursor <= height <= tip
      requires pool == Forward(start, diffs, from, cursor)
      ensures start == PoolAt(diffs, from) && SoundTo(diffs, height) ==>
        Faithful() && ForwardChecks(start, diffs, from, cursor)
    {
      if start == PoolAt(diffs, from) && SoundTo(diffs, height) {
        SoundForward(start, diffs, from, cursor);
      }
    }

    lemma ProveFaithfulBackward(from: nat, start: set<Hash>)
      requires Valid() && cursor <= from <= tip
      requires pool == Backward(start, diffs, from, cursor)
      ensures start == PoolAt(diffs, from) && SoundTo(diffs, from) ==>
        Faithful() && BackwardChecks(start, diffs, from, cursor)
    {
      if start == PoolAt(diffs, from) && SoundTo(diffs, from) {
        SoundBackward(start, diffs, from, cursor);
      }
    }

    /** advance applies the diff at the cursor. It moves on even when the size check
        fails. With no diffs at all its guard, which compares with an index that is
        then still 0, lets it index an empty slice. */
    method Advance() returns (move: Move)
      requires 0 <= cursor <= |diffs| && tip == |diffs|
      modifies `cursor, `pool
      ensures move == OutOfRange <==> tip == 0
      ensures move == AtTip <==> old(cursor) == tip > 0
      ensures old(cursor) == tip ==> cursor == old(cursor) && pool == old(pool)
      ensures old(cursor) < tip ==>
        && cursor == old(cursor) + 1
        && pool == Apply(old(pool), diffs[old(cursor)])
        && (move == Moved <==> SizeOk(old(pool), pool, diffs[old(cursor)]))
    {
      if cursor > MaxCursor() {
        return AtTip;
      }
      if cursor >= |diffs| {
        return OutOfRange;
      }
      var diffToNext := diffs[cursor];
      var expectedFinalSize := |pool| + |diffToNext.incoming| - |diffToNext.outgoing|;
      ApplyDiff(diffToNext.incoming, diffToNext.outgoing);
      cursor := cursor + 1;
      move := if |pool| == expectedFinalSize then Moved else SizeMismatch;
    }

    /** advanceTo applies diffs until the height is reached or a size check fails. */
    method AdvanceTo(height: int) returns (ok: bool)
      requires Valid()
      modifies `cursor, `pool
      ensures Valid()
      ensures height > tip ==> !ok && cursor == old(cursor) && pool == old(pool)
      ensures height <= tip ==>
        && old(cursor) <= cursor
        && pool == Forward(old(pool), diffs, old(cursor), cursor)
        && (ok ==> cursor == (if old(cursor) <= height then height else old(cursor))
                   && ForwardChecks(old(pool), diffs, old(cursor), cursor))
        && (!ok ==> cursor <= height && FailedForward(old(pool), diffs, old(cursor), cursor))
    {
      hide Apply, Undo, WellFormed, PoolAt, Contiguous, Holds;
      if height > tip {
        return false;
      }
      ghost var from, start := cursor, pool;
      while height > cursor
        invariant Valid() && from <= cursor && cursor <= (if from <= height then height else from)
        invariant pool == Forward(start, diffs, from, cursor)
        invariant ForwardChecks(start, diffs, from, cursor)
      {
        var move := Advance();
        ok := move == Moved;
        if !ok {
          return false;
        }
      }
      ok := true;
    }

    /** AdvanceToTip applies all diffs that are left. On sound diffs it succeeds and
        the pool is the fold of them all. */
    method AdvanceToTip() returns (height: int, ok: bool)
      requires Valid()
      modifies `cursor, `pool
      ensures Valid() && height == cursor
      ensures ok <==> ForwardChecks(old(pool), diffs, old(cursor), tip)
      ensures ok ==> cursor == tip
      ensures !ok ==> old(cursor) < cursor && FailedForward(old(pool), diffs, old(cursor), cursor)
      ensures pool == Forward(old(pool), diffs, old(cursor), cursor)
      ensures old(Faithful()) && SoundTo(diffs, tip) ==> ok && Faithful()
    {
      ghost var from, start := cursor, pool;
      ok := AdvanceTo(tip);
      height := cursor;
      if start == PoolAt(diffs, from) && SoundTo(diffs, tip) {
        SoundForward(start, diffs, from, tip);
      }
      if ForwardChecks(start, diffs, from, tip) {
        ForwardChecksPrefix(start, diffs, from, cursor, tip);
      }
    }

    /** retreat applies the diff before the cursor backwards. */
    method Retreat() returns (ok: bool)
      requires 0 <= cursor <= |diffs|
      modifies `cursor, `pool
      ensures old(cursor) == 0 ==> !ok && cursor == 0 && pool == old(pool)
      ensures old(cursor) > 0 ==>
        && cursor == old(cursor) - 1
        && pool == Undo(old(pool), diffs[cursor])
        && (ok <==> SizeOk(old(pool), pool, diffs[cursor].Swap()))
    {
      if cursor == 0 {
        return false;
      }
      var diffFromPrev := diffs[cursor - 1];
      var expectedFinalSize := |pool| - |diffFromPrev.incoming| + |diffFromPrev.outgoing|;
      ApplyDiff(diffFromPrev.outgoing, diffFromPrev.incoming);
      cursor := cursor - 1;
      ok := |pool| == expectedFinalSize;
    }

    /** maxCursor is the largest valid index into the diffs, or 0 for none. */
    function MaxCursor(): int
      reads this
    {
      if tip == 0 then 0 else tip - 1
    }

    /** retreatTo undoes diffs until the height is reached or a size check fails. */
    method RetreatTo(height: int) returns (ok: bool)
      requires 0 <= cursor <= |diffs|
      modifies `cursor, `pool
      ensures height < 0 || height > tip ==> !ok && cursor == old(cursor) && pool == old(pool)
      ensures 0 <= height <= tip ==>
        && 0 <= cursor <= old(cursor)
        && pool == Backward(old(pool), diffs, old(cursor), cursor)
        && (ok ==> cursor == (if old(cursor) <= height then old(cursor) else height)
                   && BackwardChecks(old(pool), diffs, old(cursor), cursor))
        && (!ok ==> height <= cursor && FailedBackward(old(pool), diffs, old(cursor), cursor))
        && cursor == RetreatEnd(old(pool), diffs, old(cursor), height)
    {
      hide Apply, Undo, WellFormed, PoolAt, Contiguous, Holds, Elems, NoDup, SoundTo;
      if height < 0 || height > tip {
        return false;
      }
      ghost var from, start := cursor, pool;
      while cursor > height
        invariant 0 <= cursor <= from <= |diffs| && (from <= height ==> cursor == from)
        invariant from > height ==> height <= cursor
        invariant pool == Backward(start, diffs, from, cursor)
        invariant BackwardChecks(start, diffs, from, cursor)
        invariant RetreatEnd(start, diffs, from, height) == RetreatEnd(pool, diffs, cursor, height)
        decreases cursor
      {
        ok := Retreat();
        if !ok {
          return false;
        }
      }
      ok := true;
    }

    /** applyDiff adds and then removes tickets one at a time. */
    method ApplyDiff(incoming: seq<Hash>, outgoing: seq<Hash>)
      modifies `pool
      ensures pool == Apply(old(pool), PoolDiff(incoming, outgoing))
      ensures forall t :: t in pool <==> (t in old(pool) || t in incoming) && t !in outgoing
    {
      for i := 0 to |incoming|
        invariant pool == old(pool) + Elems(incoming[..i])
      {
        ElemsSnoc(incoming[..i + 1]);
        assert incoming[..i + 1][..i] == incoming[..i];
        pool := pool + {incoming[i]};
      }
      assert incoming[..|incoming|] == incoming;
      for i := 0 to |outgoing|
        invariant pool == (old(pool) + Elems(incoming)) - Elems(outgoing[..i])
      {
        ElemsSnoc(outgoing[..i + 1]);
        assert outgoing[..i + 1][..i] == outgoing[..i];
        pool := pool - {outgoing[i]};
      }
      assert outgoing[..|outgoing|] == outgoing;
    }
  }
}
