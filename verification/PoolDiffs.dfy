/** The ticket sets that PoolDiffs describe: what applying a diff does to a live
    ticket pool, when applying it backwards undoes it, and the pool that a list
    of diffs stands for. */
module PoolDiffs {
  import opened Common

  /** Tickets entering and leaving the live pool from one height to the next. */
  datatype PoolDiff = PoolDiff(incoming: seq<Hash>, outgoing: seq<Hash>) {
    function Swap(): PoolDiff {
      PoolDiff(outgoing, incoming)
    }
  }

  const EMPTY_DIFF := PoolDiff([], [])

  function Apply(pool: set<Hash>, d: PoolDiff): set<Hash> {
    (pool + Elems(d.incoming)) - Elems(d.outgoing)
  }

  function Undo(pool: set<Hash>, d: PoolDiff): set<Hash> {
    Apply(pool, d.Swap())
  }

  /** The sanity check made after every step of the cursor. */
  predicate SizeOk(before: set<Hash>, after: set<Hash>, d: PoolDiff) {
    |after| == |before| + |d.incoming| - |d.outgoing|
  }

  /** What the stake node guarantees of the diff at one height: new tickets are
      new and distinct, and the tickets going out are distinct and live. */
  ghost predicate WellFormed(pool: set<Hash>, d: PoolDiff) {
    && NoDup(d.incoming)
    && NoDup(d.outgoing)
    && Elems(d.incoming) !! pool
    && Elems(d.outgoing) <= pool + Elems(d.incoming)
  }

  /** The pool after the first n diffs. */
  function PoolAt(diffs: seq<PoolDiff>, n: nat): set<Hash>
    requires n <= |diffs|
  {
    if n == 0 then {} else Apply(PoolAt(diffs, n - 1), diffs[n - 1])
  }

  /** The first n diffs are well formed, each at its own height. */
  ghost predicate SoundTo(diffs: seq<PoolDiff>, n: nat)
    requires n <= |diffs|
  {
    forall i :: 0 <= i < n ==> WellFormed(PoolAt(diffs, i), diffs[i])
  }

  /** diffs[i..j] applied in order to a pool. */
  function Forward(pool: set<Hash>, diffs: seq<PoolDiff>, i: nat, j: nat): set<Hash>
    requires i <= j <= |diffs|
  {
    if i == j then pool else Apply(Forward(pool, diffs, i, j - 1), diffs[j - 1])
  }

  /** diffs[lo..hi] applied backwards, highest first, to a pool. */
  function Backward(pool: set<Hash>, diffs: seq<PoolDiff>, hi: nat, lo: nat): set<Hash>
    requires lo <= hi <= |diffs|
    decreases hi - lo
  {
    if hi == lo then pool else Undo(Backward(pool, diffs, hi, lo + 1), diffs[lo])
  }

  lemma {:induction false} PoolAtPrefix(a: seq<PoolDiff>, b: seq<PoolDiff>, n: nat)
    requires n <= |a| && n <= |b| && a[..n] == b[..n]
    ensures PoolAt(a, n) == PoolAt(b, n)
  {
    if n > 0 {
      assert a[..n - 1] == a[..n][..n - 1] == b[..n][..n - 1] == b[..n - 1];
      assert a[n - 1] == a[..n][n - 1] == b[..n][n - 1] == b[n - 1];
      PoolAtPrefix(a, b, n - 1);
    }
  }

  lemma PoolAtNext(diffs: seq<PoolDiff>, n: nat)
    requires n < |diffs|
    ensures PoolAt(diffs, n + 1) == Apply(PoolAt(diffs, n), diffs[n])
  {
  }

  lemma SoundToPrefix(a: seq<PoolDiff>, b: seq<PoolDiff>, n: nat)
    requires n <= |a| && n <= |b| && a[..n] == b[..n] && SoundTo(a, n)
    ensures SoundTo(b, n)
  {
    forall i | 0 <= i < n
      ensures WellFormed(PoolAt(b, i), b[i])
    {
      assert a[..i] == a[..n][..i] == b[..n][..i] == b[..i];
      assert a[i] == a[..n][i] == b[..n][i] == b[i];
      PoolAtPrefix(a, b, i);
      assert WellFormed(PoolAt(a, i), a[i]);
    }
  }

  lemma {:induction false} ForwardFromFold(diffs: seq<PoolDiff>, i: nat, j: nat)
    requires i <= j <= |diffs|
    ensures Forward(PoolAt(diffs, i), diffs, i, j) == PoolAt(diffs, j)
  {
    if i < j {
      ForwardFromFold(diffs, i, j - 1);
    }
  }

  lemma {:induction false} BackwardFromFold(top: set<Hash>, diffs: seq<PoolDiff>, hi: nat, lo: nat)
    requires lo <= hi <= |diffs| && SoundTo(diffs, hi) && top == PoolAt(diffs, hi)
    ensures Backward(top, diffs, hi, lo) == PoolAt(diffs, lo)
    decreases hi - lo
  {
    hide Apply, Undo, WellFormed, SizeOk;
    if lo < hi {
      BackwardFromFold(top, diffs, hi, lo + 1);
      UndoStep(diffs, lo);
    }
  }

  /** One sound step back. */
  lemma UndoStep(diffs: seq<PoolDiff>, n: nat)
    requires n < |diffs| && WellFormed(PoolAt(diffs, n), diffs[n])
    ensures Undo(PoolAt(diffs, n + 1), diffs[n]) == PoolAt(diffs, n)
    ensures SizeOk(PoolAt(diffs, n + 1), PoolAt(diffs, n), diffs[n].Swap())
    ensures SizeOk(PoolAt(diffs, n), PoolAt(diffs, n + 1), diffs[n])
  {
    WellFormedSize(PoolAt(diffs, n), diffs[n]);
  }

  // ------------------------------------------------------------------------
  // The size check
  // ------------------------------------------------------------------------

  /** How many insertions of s find their ticket already in the pool. */
  function IneffectiveAdds(pool: set<Hash>, s: seq<Hash>): nat {
    if s == [] then 0
    else
      var init, last := s[..|s| - 1], s[|s| - 1];
      IneffectiveAdds(pool, init) + if last in pool + Elems(init) then 1 else 0
  }

  /** How many removals of s find their ticket missing from the pool. */
  function IneffectiveRemovals(pool: set<Hash>, s: seq<Hash>): nat {
    if s == [] then 0
    else
      var init, last := s[..|s| - 1], s[|s| - 1];
      IneffectiveRemovals(pool, init) + if last in pool - Elems(init) then 0 else 1
  }

  lemma {:induction false} AddSize(pool: set<Hash>, s: seq<Hash>)
    ensures |pool + Elems(s)| == |pool| + |s| - IneffectiveAdds(pool, s)
  {
    if s == [] {
      assert pool + Elems(s) == pool;
    } else {
      var init, last := s[..|s| - 1], s[|s| - 1];
      var before := pool + Elems(init);
      AddSize(pool, init);
      ElemsSnoc(s);
      assert pool + Elems(s) == before + {last};
      assert last in before ==> before + {last} == before;
    }
  }

  lemma {:induction false} RemoveSize(pool: set<Hash>, s: seq<Hash>)
    ensures |pool - Elems(s)| == |pool| - |s| + IneffectiveRemovals(pool, s)
  {
    if s == [] {
      assert pool - Elems(s) == pool;
    } else {
      var init, last := s[..|s| - 1], s[|s| - 1];
      RemoveSize(pool, init);
      ElemsSnoc(s);
      assert pool - Elems(s) == (pool - Elems(init)) - {last};
    }
  }

  /** The size check of a step passes exactly when as many insertions as removals
      had no effect: it cannot tell a faulty insertion from a faulty removal. */
  lemma SizeCheckExact(pool: set<Hash>, d: PoolDiff)
    ensures SizeOk(pool, Apply(pool, d), d)
       <==> IneffectiveAdds(pool, d.incoming)
            == IneffectiveRemovals(pool + Elems(d.incoming), d.outgoing)
  {
    AddSize(pool, d.incoming);
    RemoveSize(pool + Elems(d.incoming), d.outgoing);
  }

  lemma WellFormedSize(pool: set<Hash>, d: PoolDiff)
    requires WellFormed(pool, d)
    ensures SizeOk(pool, Apply(pool, d), d)
    ensures Undo(Apply(pool, d), d) == pool
    ensures SizeOk(Apply(pool, d), pool, d.Swap())
  {
    var mid := pool + Elems(d.incoming);
    ElemsSize(d.incoming);
    ElemsSize(d.outgoing);
    assert |mid| == |pool| + |Elems(d.incoming)|;
    assert |mid| == |mid - Elems(d.outgoing)| + |Elems(d.outgoing)| by {
      assert mid == (mid - Elems(d.outgoing)) + Elems(d.outgoing);
    }
  }

  /** How many entries of s repeat an earlier one. */
  function Repeats(s: seq<Hash>): int {
    |s| - |Elems(s)|
  }

  /** The tickets coming in are new, and the tickets going out are there to be removed. */
  predicate Restorable(pool: set<Hash>, d: PoolDiff) {
    Elems(d.incoming) !! pool && Elems(d.outgoing) <= pool + Elems(d.incoming)
  }

  /** Undoing a diff restores the pool exactly when it is restorable. */
  lemma UndoRestoresExactly(pool: set<Hash>, d: PoolDiff)
    ensures Undo(Apply(pool, d), d) == pool <==> Restorable(pool, d)
  {
    var ins, outs := Elems(d.incoming), Elems(d.outgoing);
    hide Elems;
    var back := Undo(Apply(pool, d), d);
    assert back == (((pool + ins) - outs) + outs) - ins;
    if back == pool {
      forall t | t in outs
        ensures t in pool + ins
      {
        assert t in ins || t in back;
      }
    }
    if ins !! pool && outs <= pool + ins {
      assert forall t :: t in back <==> t in pool;
    }
  }

  /** What undoing d leaves wrong is put right by undoing the diff below it where that
      one names the ticket. */
  predicate RestorableThrough(pool: set<Hash>, below: PoolDiff, d: PoolDiff) {
    var named := Elems(below.incoming) + Elems(below.outgoing);
    && Restorable(pool, below)
    && (Elems(d.incoming) - named) !! pool
    && Elems(d.outgoing) <= pool + Elems(d.incoming) + named
  }

  /** Undoing two diffs restores the pool below both exactly when the lower one is
      restorable and makes good for the upper one, which need not be restorable. */
  lemma TwoUndosRestoreExactly(pool: set<Hash>, below: PoolDiff, d: PoolDiff)
    ensures (Undo(Undo(Apply(Apply(pool, below), d), d), below) == pool <==>
             RestorableThrough(pool, below, d))
  {
    var ins, outs, insB, outsB := Elems(d.incoming), Elems(d.outgoing), Elems(below.incoming), Elems(below.outgoing);
    hide Elems;
    var back := Undo(Undo(Apply(Apply(pool, below), d), d), below);
    forall t
      ensures t in back <==>
        t !in insB && (t in outsB || (t !in ins && (t in outs || (t in pool && t !in outsB))))
    {
    }
    if back == pool {
      forall t
        ensures t in ins - (insB + outsB) ==> t !in pool
        ensures t in outs ==> t in pool + ins + (insB + outsB)
        ensures t in insB ==> t !in pool
        ensures t in outsB ==> t in pool + insB
      {
        assert t in back <==> t in pool;
      }
    }
    if RestorableThrough(pool, below, d) {
      assert forall t :: t in back <==> t in pool;
    }
  }

  lemma SizeWhenEffective(pool: set<Hash>, ins: set<Hash>, outs: set<Hash>)
    requires ins !! pool && outs <= pool + ins
    ensures |(pool + ins) - outs| == |pool| + |ins| - |outs|
  {
    var mid := pool + ins;
    assert |mid| == |pool| + |ins|;
    assert mid == (mid - outs) + outs;
  }

  /** Applying a diff and then applying it backwards passes both size checks and
      restores the pool exactly when the tickets coming in are new, the tickets
      going out are there to be removed, and both lists hold equally many
      repeats. A ticket may be in both lists. */
  lemma RetreatUndoesAdvanceExactly(pool: set<Hash>, d: PoolDiff)
    ensures
      var next := Apply(pool, d);
      var back := Undo(next, d);
      (SizeOk(pool, next, d) && SizeOk(next, back, d.Swap()) && back == pool)
      <==>
      Restorable(pool, d) && Repeats(d.incoming) == Repeats(d.outgoing)
  {
    hide Elems, Undo;
    UndoRestoresExactly(pool, d);
    if Restorable(pool, d) {
      SizeWhenEffective(pool, Elems(d.incoming), Elems(d.outgoing));
    }
  }

  /** A diff that repeats a ticket on both sides is not well formed, and yet every
      check passes and the pool comes back. */
  lemma RepeatsCanCancel()
    ensures
      var a, b := Hash(1), Hash(2);
      var pool, d := {b}, PoolDiff([a, a], [b, b]);
      var next := Apply(pool, d);
      !WellFormed(pool, d) && SizeOk(pool, next, d)
      && Undo(next, d) == pool && SizeOk(next, pool, d.Swap())
  {
    var a, b := Hash(1), Hash(2);
    var pool, d := {b}, PoolDiff([a, a], [b, b]);
    assert Elems(d.incoming) == {a} && Elems(d.outgoing) == {b};
    assert !NoDup(d.incoming) by { assert d.incoming[0] == d.incoming[1]; }
    assert Apply(pool, d) == {a};
    assert Undo({a}, d) == {b};
  }
}
