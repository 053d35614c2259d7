/** The on-disk copy of the pool diffs: a key-value store whose keys are heights
    written as eight big-endian bytes, read back in byte order. */
module DiffStore {
  import opened PoolDiffs

  type byte = b: int | 0 <= b < 256
  type Key = seq<byte>
  type DB = map<Key, PoolDiff>

  const KEY_SIZE := 8
  const UINT64_LIMIT := 0x1_0000_0000_0000_0000

  function Pow256(n: nat): nat {
    if n == 0 then 1 else 256 * Pow256(n - 1)
  }

  /** The n low bytes of a number, most significant first. */
  function BigEndian(h: nat, n: nat): (k: Key)
    ensures |k| == n
  {
    if n == 0 then [] else BigEndian(h / 256, n - 1) + [h % 256]
  }

  /** The number that a big-endian byte string stands for. */
  function Height(k: Key): nat {
    if k == [] then 0 else 256 * Height(k[..|k| - 1]) + k[|k| - 1]
  }

  function KeyOf(h: nat): (k: Key)
    ensures |k| == KEY_SIZE
  {
    BigEndian(h, KEY_SIZE)
  }

  lemma {:induction false} HeightOfBigEndian(h: nat, n: nat)
    requires h < Pow256(n)
    ensures Height(BigEndian(h, n)) == h
  {
    if n > 0 {
      HeightOfBigEndian(h / 256, n - 1);
      var k := BigEndian(h, n);
      assert k[..|k| - 1] == BigEndian(h / 256, n - 1);
    }
  }

  lemma {:induction false} BigEndianOfHeight(k: Key)
    ensures BigEndian(Height(k), |k|) == k
    ensures Height(k) < Pow256(|k|)
  {
    if k != [] {
      BigEndianOfHeight(k[..|k| - 1]);
      assert k == k[..|k| - 1] + [k[|k| - 1]];
    }
  }

  /** A stored height is read back as it was written, and a key names one height. */
  lemma KeyRoundTrip(h: nat)
    requires h < UINT64_LIMIT
    ensures |KeyOf(h)| == 8 && Height(KeyOf(h)) == h
  {
    assert Pow256(2) == 0x1_0000;
    assert Pow256(4) == 0x1_0000_0000;
    assert Pow256(6) == 0x1_0000_0000_0000;
    assert Pow256(8) == UINT64_LIMIT;
    HeightOfBigEndian(h, KEY_SIZE);
  }

  lemma KeyOfHeight(k: Key)
    requires |k| == KEY_SIZE
    ensures KeyOf(Height(k)) == k
    ensures Height(k) < UINT64_LIMIT
  {
    assert Pow256(2) == 0x1_0000;
    assert Pow256(4) == 0x1_0000_0000;
    assert Pow256(6) == 0x1_0000_0000_0000;
    assert Pow256(8) == UINT64_LIMIT;
    BigEndianOfHeight(k);
  }

  /** Byte order of two keys of one length: the first byte that differs decides. */
  predicate ByteLess(a: Key, b: Key)
    requires |a| == |b|
  {
    exists i :: 0 <= i < |a| && a[..i] == b[..i] && a[i] < b[i]
  }

  /** Byte order is height order. */
  lemma ByteOrderIsHeightOrder(a: Key, b: Key)
    requires |a| == |b|
    ensures ByteLess(a, b) <==> Height(a) < Height(b)
  {
    hide Height;
    if ByteLess(a, b) {
      var i :| 0 <= i < |a| && a[..i] == b[..i] && a[i] < b[i];
      FirstDifferenceDecides(a, b, i);
    } else if a != b {
      var i := FirstDifference(a, b);
      assert !(a[i] < b[i]);
      assert b[i] < a[i];
      FirstDifferenceDecides(b, a, i);
    }
  }

  lemma {:induction false} FirstDifferenceDecides(a: Key, b: Key, i: nat)
    requires |a| == |b| && i < |a| && a[..i] == b[..i] && a[i] < b[i]
    ensures Height(a) < Height(b)
  {
    var n := |a| - 1;
    if i < n {
      assert a[..n][..i] == a[..i] == b[..i] == b[..n][..i];
      FirstDifferenceDecides(a[..n], b[..n], i);
    }
  }

  lemma {:induction false} FirstDifference(a: Key, b: Key) returns (i: nat)
    requires |a| == |b| && a != b
    ensures i < |a| && a[..i] == b[..i] && a[i] != b[i]
  {
    if a[0] != b[0] {
      i := 0;
    } else {
      assert a == [a[0]] + a[1..] && b == [b[0]] + b[1..];
      var k := FirstDifference(a[1..], b[1..]);
      i := k + 1;
      assert a[..i] == [a[0]] + a[1..][..k] && b[..i] == [b[0]] + b[1..][..k];
    }
  }

  /** The store holds the diffs of heights 1 to n and nothing else. */
  ghost predicate Contiguous(db: DB, n: nat) {
    && n < UINT64_LIMIT
    && (forall h :: 1 <= h <= n ==> KeyOf(h) in db)
    && (forall k :: k in db ==> |k| == KEY_SIZE && 1 <= Height(k) <= n)
  }

  /** The store agrees with a list of diffs, the diff of height 1 first. */
  ghost predicate Holds(db: DB, diffs: seq<PoolDiff>) {
    forall h :: 1 <= h <= |diffs| ==> KeyOf(h) in db && db[KeyOf(h)] == diffs[h - 1]
  }

  /** The key the iterator visits next. */
  predicate First(keys: set<Key>, k: Key)
    requires forall other :: other in keys ==> |other| == KEY_SIZE
  {
    k in keys && forall other :: other in keys && other != k ==> ByteLess(k, other)
  }

  lemma {:induction false} LowestKeyExists(keys: set<Key>)
    requires keys != {}
    ensures exists k :: k in keys && forall other :: other in keys ==> Height(k) <= Height(other)
  {
    var pick :| pick in keys;
    var rest := keys - {pick};
    if rest == {} {
      assert keys == {pick};
    } else {
      LowestKeyExists(rest);
      var low :| low in rest && forall other :: other in rest ==> Height(low) <= Height(other);
      var k := if Height(pick) < Height(low) then pick else low;
      assert forall other :: other in keys ==> other == pick || other in rest;
      assert k in keys && forall other :: other in keys ==> Height(k) <= Height(other);
    }
  }

  /** The iterator can always move on, and to the lowest height that is left. */
  lemma FirstKeyExists(keys: set<Key>)
    requires keys != {} && forall k :: k in keys ==> |k| == KEY_SIZE
    ensures exists k :: First(keys, k)
  {
    LowestKeyExists(keys);
    var k :| k in keys && forall other :: other in keys ==> Height(k) <= Height(other);
    forall other | other in keys && other != k
      ensures ByteLess(k, other)
    {
      KeyOfHeight(k);
      KeyOfHeight(other);
      ByteOrderIsHeightOrder(k, other);
    }
    assert First(keys, k);
  }

  lemma FirstIsLowest(keys: set<Key>, k: Key)
    requires forall other :: other in keys ==> |other| == KEY_SIZE
    requires First(keys, k)
    ensures forall other :: other in keys && other != k ==> Height(k) < Height(other)
  {
    forall other | other in keys && other != k
      ensures Height(k) < Height(other)
    {
      ByteOrderIsHeightOrder(k, other);
    }
  }

  /** The part of the store that the iterator has left after height last. */
  ghost predicate Remaining(db: DB, rest: set<Key>, last: nat) {
    rest <= db.Keys && forall k :: k in db ==> (k in rest <==> !(1 <= Height(k) <= last))
  }

  lemma GapIsNotContiguous(db: DB, rest: set<Key>, last: nat, k: Key, n: nat)
    requires forall other :: other in db ==> |other| == KEY_SIZE
    requires Remaining(db, rest, last) && First(rest, k) && Height(k) != last + 1
    ensures !Contiguous(db, n)
  {
    if Contiguous(db, n) {
      var missing := KeyOf(last + 1);
      KeyRoundTrip(last + 1);
      assert missing in rest;
      FirstIsLowest(rest, k);
      assert false;
    }
  }

  lemma RemainingStep(db: DB, rest: set<Key>, last: nat, k: Key)
    requires forall other :: other in db ==> |other| == KEY_SIZE
    requires Remaining(db, rest, last) && k in rest && Height(k) == last + 1
    ensures Remaining(db, rest - {k}, last + 1)
  {
    forall other | other in db
      ensures other in rest - {k} <==> !(1 <= Height(other) <= last + 1)
    {
      if Height(other) == last + 1 {
        KeyOfHeight(other);
        KeyOfHeight(k);
      }
    }
  }

  datatype LoadResult = Loaded(diffs: seq<PoolDiff>) | LoadPanicked

  /** LoadAllPoolDiffs: walks the store in byte order and panics at a gap. */
  method LoadAllPoolDiffs(db: DB) returns (r: LoadResult)
    requires forall k :: k in db ==> |k| == KEY_SIZE
    ensures r.Loaded? <==> exists n: nat :: Contiguous(db, n)
    ensures r.Loaded? ==> Contiguous(db, |r.diffs|) && Holds(db, r.diffs)
  {
    var poolDiffs: seq<PoolDiff> := [];
    var lastheight: nat := 0;
    var rest := db.Keys;
    while rest != {}
      invariant |poolDiffs| == lastheight < UINT64_LIMIT
      invariant Holds(db, poolDiffs)
      invariant Remaining(db, rest, lastheight)
      decreases rest
    {
      FirstKeyExists(rest);
      var k :| First(rest, k);
      var height := Height(k);
      KeyOfHeight(k);
      if lastheight + 1 != height {
        forall n: nat ensures !Contiguous(db, n) {
          GapIsNotContiguous(db, rest, lastheight, k, n);
        }
        return LoadPanicked;
      }
      poolDiffs := poolDiffs + [db[k]];
      RemainingStep(db, rest, lastheight, k);
      lastheight := height;
      rest := rest - {k};
    }
    assert Contiguous(db, lastheight);
    return Loaded(poolDiffs);
  }

  /** storeDiff writes the diff of a height just above what is held, whether or not
      a stale diff of that height is still on disk. */
  lemma StoreKeepsDisk(db: DB, n: nat, diffs: seq<PoolDiff>, d: PoolDiff)
    requires Contiguous(db, n) && |diffs| <= n && Holds(db, diffs)
    requires |diffs| + 1 < UINT64_LIMIT
    ensures
      var h := |diffs| + 1;
      var db' := db[KeyOf(h) := d];
      Contiguous(db', if h <= n then n else h) && Holds(db', diffs + [d])
  {
    var h := |diffs| + 1;
    var db' := db[KeyOf(h) := d];
    KeyRoundTrip(h);
    forall i | 1 <= i <= |diffs|
      ensures KeyOf(i) in db' && db'[KeyOf(i)] == diffs[i - 1]
    {
      KeyRoundTrip(i);
    }
    forall i | 1 <= i <= |diffs| + 1
      ensures KeyOf(i) in db' && db'[KeyOf(i)] == (diffs + [d])[i - 1]
    {
    }
  }

  /** What a restart reads back starts with exactly the diffs that were in memory,
      followed by whatever stale diffs Trim left on disk. */
  lemma ReloadStartsWithMemory(db: DB, n: nat, memory: seq<PoolDiff>, loaded: seq<PoolDiff>)
    requires Contiguous(db, n) && |memory| <= n && Holds(db, memory)
    requires Contiguous(db, |loaded|) && Holds(db, loaded)
    ensures |loaded| == n && loaded[..|memory|] == memory
  {
    if n > 0 {
      KeyRoundTrip(n);
      assert KeyOf(n) in db;
    }
    if |loaded| > 0 {
      KeyRoundTrip(|loaded|);
      assert KeyOf(|loaded|) in db;
    }
    forall i | 0 <= i < |memory|
      ensures loaded[i] == memory[i]
    {
      assert KeyOf(i + 1) in db && db[KeyOf(i + 1)] == memory[i + 1 - 1];
      assert db[KeyOf(i + 1)] == loaded[i + 1 - 1];
    }
  }

  /** Two lists of one length held by the same store are the same list. */
  lemma HeldDiffsUnique(db: DB, a: seq<PoolDiff>, b: seq<PoolDiff>)
    requires Holds(db, a) && Holds(db, b) && |a| == |b|
    ensures a == b
  {
    forall i | 0 <= i < |a|
      ensures a[i] == b[i]
    {
      assert db[KeyOf(i + 1)] == a[i + 1 - 1];
      assert db[KeyOf(i + 1)] == b[i + 1 - 1];
    }
  }
}
