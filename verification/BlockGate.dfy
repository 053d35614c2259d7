/** The block cache (rpcutils/blockgate.go): the blocks of the last few updates, by
    height and by hash, and the channels of callers waiting for a block. */
module BlockGates {
  import opened Common
  import opened StakeNodes

  // ------------------------------------------------------------------------
  // A map that mirrors a queue of entries
  // ------------------------------------------------------------------------

  datatype Entry<K, V> = Entry(key: K, value: V)

  predicate KeyIn<K(==), V>(q: seq<Entry<K, V>>, k: K) {
    exists i :: 0 <= i < |q| && q[i].key == k
  }

  /** The value of the most recent entry of a key. */
  function Latest<K(==), V>(q: seq<Entry<K, V>>, k: K): Option<V> {
    if q == [] then None
    else if q[|q| - 1].key == k then Some(q[|q| - 1].value)
    else Latest(q[..|q| - 1], k)
  }

  /** The map holds exactly the keys of the queue, each with its most recent value. */
  ghost predicate Mirrors<K(!new), V>(q: seq<Entry<K, V>>, m: map<K, V>) {
    && (forall k :: k in m <==> KeyIn(q, k))
    && (forall k :: k in m ==> Some(m[k]) == Latest(q, k))
  }

  lemma PushMirrors<K(!new), V>(q: seq<Entry<K, V>>, e: Entry<K, V>, m: map<K, V>)
    requires Mirrors(q, m)
    ensures Mirrors(q + [e], m[e.key := e.value])
  {
    var longer := q + [e];
    assert longer[..|q|] == q;
    forall k
      ensures KeyIn(longer, k) <==> KeyIn(q, k) || k == e.key
    {
      assert longer[|q|] == e;
      if KeyIn(q, k) {
        var i :| 0 <= i < |q| && q[i].key == k;
        assert longer[i].key == k;
      }
    }
  }

  /** Dropping the oldest entry does not change what is latest for the keys left. */
  lemma {:induction false} LatestOfTail<K, V>(q: seq<Entry<K, V>>, k: K)
    requires q != [] && KeyIn(q[1..], k)
    ensures Latest(q[1..], k) == Latest(q, k)
  {
    var tail := q[1..];
    if q[|q| - 1].key != k {
      var i :| 0 <= i < |tail| && tail[i].key == k;
      assert q[..|q| - 1][1..] == tail[..|tail| - 1];
      assert tail[..|tail| - 1][i] == tail[i];
      LatestOfTail(q[..|q| - 1], k);
    }
  }

  /** Popping the oldest entry keeps the mirror when its key is deleted exactly if no
      entry left in the queue has it. */
  lemma PopMirrors<K(!new), V>(q: seq<Entry<K, V>>, m: map<K, V>)
    requires q != [] && Mirrors(q, m)
    ensures Mirrors(q[1..], if KeyIn(q[1..], q[0].key) then m else m - {q[0].key})
  {
    var tail, oldest := q[1..], q[0];
    forall k
      ensures KeyIn(q, k) <==> KeyIn(tail, k) || k == oldest.key
      ensures KeyIn(tail, k) ==> Latest(tail, k) == Latest(q, k)
    {
      if KeyIn(tail, k) {
        var i :| 0 <= i < |tail| && tail[i].key == k;
        assert q[i + 1].key == k;
        LatestOfTail(q, k);
      }
      if KeyIn(q, k) && k != oldest.key {
        var i :| 0 <= i < |q| && q[i].key == k;
        assert tail[i - 1].key == k;
      }
    }
  }

  // ------------------------------------------------------------------------
  // The cache
  // ------------------------------------------------------------------------

  datatype Pair = Pair(height: int, hash: Hash)

  function ByHeight(q: seq<Pair>): (r: seq<Entry<int, Hash>>)
    ensures |r| == |q|
  {
    seq(|q|, i requires 0 <= i < |q| => Entry(q[i].height, q[i].hash))
  }

  function ByHash(q: seq<Pair>): (r: seq<Entry<Hash, int>>)
    ensures |r| == |q|
  {
    seq(|q|, i requires 0 <= i < |q| => Entry(q[i].hash, q[i].height))
  }

  function HeightsOf(blocks: map<Hash, Block>): map<Hash, int> {
    map x | x in blocks :: blocks[x].height as int
  }

  /** The two cache maps hold exactly the heights and hashes of the queue; where a
      height or a hash repeats, they hold its most recent entry. */
  ghost predicate Caches(q: seq<Pair>, hashAtHeight: map<int, Hash>, blockWithHash: map<Hash, Block>) {
    && Mirrors(ByHeight(q), hashAtHeight)
    && Mirrors(ByHash(q), HeightsOf(blockWithHash))
    && (forall x :: x in blockWithHash ==> blockWithHash[x].hash == x)
  }

  /** The last cap updates; none when there is no capacity. */
  function Window(history: seq<Pair>, cap: int): seq<Pair> {
    if cap <= 0 then []
    else if |history| <= cap then history
    else history[|history| - cap..]
  }

  /** One more update moves the window by one. */
  lemma WindowMoves(history: seq<Pair>, p: Pair, cap: int)
    ensures
      var longer := Window(history, cap) + [p];
      Window(history + [p], cap) == if |longer| > cap then longer[1..] else longer
  {
  }

  lemma PushKeepsCaches(q: seq<Pair>, hashAtHeight: map<int, Hash>, blockWithHash: map<Hash, Block>, b: Block)
    requires Caches(q, hashAtHeight, blockWithHash)
    ensures Caches(q + [Pair(b.height, b.hash)], hashAtHeight[b.height := b.hash], blockWithHash[b.hash := b])
  {
    hide Mirrors;
    var longer := q + [Pair(b.height, b.hash)];
    PushMirrors(ByHeight(q), Entry(b.height as int, b.hash), hashAtHeight);
    PushMirrors(ByHash(q), Entry(b.hash, b.height as int), HeightsOf(blockWithHash));
    assert ByHeight(longer) == ByHeight(q) + [Entry(b.height as int, b.hash)];
    assert ByHash(longer) == ByHash(q) + [Entry(b.hash, b.height as int)];
    assert HeightsOf(blockWithHash[b.hash := b]) == HeightsOf(blockWithHash)[b.hash := b.height as int];
  }

  lemma PopKeepsCaches(q: seq<Pair>, hashAtHeight: map<int, Hash>, blockWithHash: map<Hash, Block>)
    requires q != [] && Caches(q, hashAtHeight, blockWithHash)
    ensures
      var tail, oldest := q[1..], q[0];
      Caches(tail,
             if KeyIn(ByHeight(tail), oldest.height) then hashAtHeight else hashAtHeight - {oldest.height},
             if KeyIn(ByHash(tail), oldest.hash) then blockWithHash else blockWithHash - {oldest.hash})
  {
    hide Mirrors;
    var tail, oldest := q[1..], q[0];
    PopMirrors(ByHeight(q), hashAtHeight);
    PopMirrors(ByHash(q), HeightsOf(blockWithHash));
    assert ByHeight(tail) == ByHeight(q)[1..] && ByHash(tail) == ByHash(q)[1..];
    assert HeightsOf(blockWithHash - {oldest.hash}) == HeightsOf(blockWithHash) - {oldest.hash};
  }

  lemma CachedLast(q: seq<Pair>, hashAtHeight: map<int, Hash>, blockWithHash: map<Hash, Block>)
    requires q != [] && Caches(q, hashAtHeight, blockWithHash)
    ensures
      var last := q[|q| - 1];
      && last.height in hashAtHeight && hashAtHeight[last.height] == last.hash
      && last.hash in blockWithHash && blockWithHash[last.hash].height == last.height
  {
    var last := q[|q| - 1];
    assert ByHeight(q)[|q| - 1].key == last.height && ByHash(q)[|q| - 1].key == last.hash;
    assert KeyIn(ByHeight(q), last.height) && KeyIn(ByHash(q), last.hash);
    assert last.hash in HeightsOf(blockWithHash);
  }

  /** The last pair of the last cap updates with a given height or hash. */
  ghost predicate LastOfHeight(history: seq<Pair>, cap: int, i: int) {
    && 0 <= i < |history| && i >= |history| - cap
    && forall j :: i < j < |history| ==> history[j].height != history[i].height
  }

  ghost predicate LastOfHash(history: seq<Pair>, cap: int, i: int) {
    && 0 <= i < |history| && i >= |history| - cap
    && forall j :: i < j < |history| ==> history[j].hash != history[i].hash
  }

  /** What is in the cache: a height or a hash exactly if one of the last cap updates
      had it, and with it what the last of those brought. */
  lemma CachesMean(history: seq<Pair>, cap: int, hashAtHeight: map<int, Hash>, blockWithHash: map<Hash, Block>)
    requires Caches(Window(history, cap), hashAtHeight, blockWithHash)
    ensures forall h :: h in hashAtHeight ==>
      exists i :: LastOfHeight(history, cap, i) && history[i] == Pair(h, hashAtHeight[h])
    ensures forall i :: LastOfHeight(history, cap, i) ==>
      history[i].height in hashAtHeight && hashAtHeight[history[i].height] == history[i].hash
    ensures forall x :: x in blockWithHash ==>
      && blockWithHash[x].hash == x
      && exists i :: LastOfHash(history, cap, i) && history[i] == Pair(blockWithHash[x].height as int, x)
    ensures forall i :: LastOfHash(history, cap, i) ==>
      history[i].hash in blockWithHash && blockWithHash[history[i].hash].height as int == history[i].height
  {
    hide Latest, LastOfKey, LastOfHeight, LastOfHash, Mirrors;
    var q := Window(history, cap);
    var d := |history| - |q|;
    LastsAreIn(history, cap);
    assert forall j :: 0 <= j < |q| ==> q[j] == history[d + j];
    MirrorsMean(ByHeight(q), hashAtHeight);
    MirrorsMean(ByHash(q), HeightsOf(blockWithHash));
    forall h | h in hashAtHeight
      ensures exists i :: LastOfHeight(history, cap, i) && history[i] == Pair(h, hashAtHeight[h])
    {
      var j :| LastOfKey(ByHeight(q), j) && ByHeight(q)[j] == Entry(h, hashAtHeight[h]);
      HeightWindow(history, cap, d + j);
    }
    forall i | LastOfHeight(history, cap, i)
      ensures history[i].height in hashAtHeight && hashAtHeight[history[i].height] == history[i].hash
    {
      HeightWindow(history, cap, i);
    }
    forall x | x in blockWithHash
      ensures exists i :: LastOfHash(history, cap, i) && history[i] == Pair(blockWithHash[x].height as int, x)
    {
      assert x in HeightsOf(blockWithHash);
      var j :| LastOfKey(ByHash(q), j) && ByHash(q)[j] == Entry(x, blockWithHash[x].height as int);
      HashWindow(history, cap, d + j);
    }
    forall i | LastOfHash(history, cap, i)
      ensures history[i].hash in blockWithHash && blockWithHash[history[i].hash].height as int == history[i].height
    {
      HashWindow(history, cap, i);
      assert history[i].hash in HeightsOf(blockWithHash);
    }
  }

  lemma LastsAreIn(history: seq<Pair>, cap: int)
    ensures forall i :: LastOfHeight(history, cap, i) || LastOfHash(history, cap, i) ==>
      |history| - |Window(history, cap)| <= i < |history|
    ensures forall j :: LastOfKey(ByHeight(Window(history, cap)), j) || LastOfKey(ByHash(Window(history, cap)), j) ==>
      0 <= j < |Window(history, cap)|
  {
  }

  ghost predicate LastOfKey<K(!new), V>(q: seq<Entry<K, V>>, i: int) {
    0 <= i < |q| && forall j :: i < j < |q| ==> q[j].key != q[i].key
  }

  lemma HeightWindow(history: seq<Pair>, cap: int, i: int)
    requires |history| - |Window(history, cap)| <= i < |history|
    ensures
      var q, d := Window(history, cap), |history| - |Window(history, cap)|;
      && ByHeight(q)[i - d] == Entry(history[i].height, history[i].hash)
      && (LastOfHeight(history, cap, i) <==> LastOfKey(ByHeight(q), i - d))
  {
    var q := Window(history, cap);
    var d := |history| - |q|;
    assert forall j :: d <= j < |history| ==> history[j].height == ByHeight(q)[j - d].key;
    assert forall j :: 0 <= j < |q| ==> history[d + j].height == ByHeight(q)[j].key;
  }

  lemma HashWindow(history: seq<Pair>, cap: int, i: int)
    requires |history| - |Window(history, cap)| <= i < |history|
    ensures
      var q, d := Window(history, cap), |history| - |Window(history, cap)|;
      && ByHash(q)[i - d] == Entry(history[i].hash, history[i].height)
      && (LastOfHash(history, cap, i) <==> LastOfKey(ByHash(q), i - d))
  {
    var q := Window(history, cap);
    var d := |history| - |q|;
    assert forall j :: d <= j < |history| ==> history[j].hash == ByHash(q)[j - d].key;
    assert forall j :: 0 <= j < |q| ==> history[d + j].hash == ByHash(q)[j].key;
  }

  /** The map holds the last entry of each key of the queue, and nothing else. */
  lemma MirrorsMean<K(!new), V(!new)>(q: seq<Entry<K, V>>, m: map<K, V>)
    requires Mirrors(q, m)
    ensures forall k :: k in m ==> exists i :: LastOfKey(q, i) && q[i] == Entry(k, m[k])
    ensures forall i :: LastOfKey(q, i) ==> q[i].key in m && m[q[i].key] == q[i].value
  {
    hide Latest;
    forall k | k in m
      ensures exists i :: LastOfKey(q, i) && q[i] == Entry(k, m[k])
    {
      var i := LatestAt(q, k);
      assert LastOfKey(q, i);
    }
    forall i | LastOfKey(q, i)
      ensures q[i].key in m && m[q[i].key] == q[i].value
    {
      assert KeyIn(q, q[i].key);
      var n := LatestAt(q, q[i].key);
      assert n == i;
    }
  }

  /** Where the most recent entry of a key is. */
  lemma {:induction false} LatestAt<K, V>(q: seq<Entry<K, V>>, k: K) returns (i: nat)
    requires KeyIn(q, k)
    ensures i < |q| && q[i].key == k && Latest(q, k) == Some(q[i].value)
    ensures forall j :: i < j < |q| ==> q[j].key != k
  {
    if q[|q| - 1].key == k {
      i := |q| - 1;
    } else {
      var init := q[..|q| - 1];
      var n :| 0 <= n < |q| && q[n].key == k;
      assert init[n].key == k;
      i := LatestAt(init, k);
    }
  }

  // ------------------------------------------------------------------------
  // Waiters
  // ------------------------------------------------------------------------

  type Chan = nat

  /** The waiting channels of each key are those that asked for it and were sent
      nothing yet; what was sent to a channel is what it asked for, and a channel that
      was sent nothing still waits. Answers matches a key with a value that may be sent
      for it. */
  ghost predicate Waiting<K(!new), V(!new)>(
    waiters: map<K, seq<Chan>>, sent: map<Chan, V>, asked: map<Chan, K>, answers: set<(K, V)>)
  {
    && (forall k, i :: k in waiters && 0 <= i < |waiters[k]| ==> WaitsAt(waiters, sent, asked, k, i))
    && (forall k :: k in waiters ==> NoDup(waiters[k]))
    && (forall c :: c in sent ==> c in asked && (asked[c], sent[c]) in answers)
    && (forall c :: c in asked && c !in sent ==> asked[c] in waiters && c in waiters[asked[c]])
  }

  ghost predicate WaitsAt<K, V>(waiters: map<K, seq<Chan>>, sent: map<Chan, V>, asked: map<Chan, K>, k: K, i: nat)
    requires k in waiters && i < |waiters[k]|
  {
    var c := waiters[k][i];
    c !in sent && c in asked && asked[c] == k
  }

  lemma AnswersGrow<K(!new), V(!new)>(
    waiters: map<K, seq<Chan>>, sent: map<Chan, V>, asked: map<Chan, K>, few: set<(K, V)>, many: set<(K, V)>)
    requires Waiting(waiters, sent, asked, few) && few <= many
    ensures Waiting(waiters, sent, asked, many)
  {
    forall k, i | k in waiters && 0 <= i < |waiters[k]|
      ensures WaitsAt(waiters, sent, asked, k, i)
    {
    }
  }

  /** A caller joins the queue of a key with a channel of its own. */
  lemma JoinWaits<K(!new), V(!new)>(
    waiters: map<K, seq<Chan>>, sent: map<Chan, V>, asked: map<Chan, K>, answers: set<(K, V)>, k: K, c: Chan)
    requires Waiting(waiters, sent, asked, answers) && c !in asked
    ensures
      var queue := (if k in waiters then waiters[k] else []) + [c];
      Waiting(waiters[k := queue], sent, asked[c := k], answers)
  {
    var queue := (if k in waiters then waiters[k] else []) + [c];
    var after, asking := waiters[k := queue], asked[c := k];
    forall x, i | x in after && 0 <= i < |after[x]|
      ensures WaitsAt(after, sent, asking, x, i)
    {
      if x != k || i < |queue| - 1 {
        assert WaitsAt(waiters, sent, asked, x, i);
      }
    }
    if k in waiters {
      forall i | 0 <= i < |waiters[k]|
        ensures waiters[k][i] != c
      {
        assert WaitsAt(waiters, sent, asked, k, i);
      }
    }
    assert queue[|queue| - 1] == c;
    assert forall x :: k in waiters && x in waiters[k] ==> x in queue;
  }

  /** The callers of a key leave the map, and each is sent the answer. */
  lemma LeaveWaits<K(!new), V(!new)>(
    waiters: map<K, seq<Chan>>, sent: map<Chan, V>, asked: map<Chan, K>, answers: set<(K, V)>,
    k: K, v: V, after: map<Chan, V>)
    requires Waiting(waiters, sent, asked, answers) && k in waiters && (k, v) in answers
    requires forall c :: c in after <==> c in sent || c in waiters[k]
    requires forall c :: c in after ==> after[c] == if c in sent then sent[c] else v
    ensures Waiting(waiters - {k}, after, asked, answers)
  {
    var left := waiters - {k};
    forall c | c in waiters[k]
      ensures c in asked && asked[c] == k
    {
      var i :| 0 <= i < |waiters[k]| && waiters[k][i] == c;
      assert WaitsAt(waiters, sent, asked, k, i);
    }
    forall x, i | x in left && 0 <= i < |left[x]|
      ensures WaitsAt(left, after, asked, x, i)
    {
      assert WaitsAt(waiters, sent, asked, x, i);
    }
  }

  /** The height-hash pairs that updates brought, as answers to either question. */
  function HashAnswers(history: seq<Pair>): set<(int, Hash)> {
    set p | p in history :: (p.height, p.hash)
  }

  function HeightAnswers(history: seq<Pair>): set<(Hash, int)> {
    set p | p in history :: (p.hash, p.height)
  }

  lemma AnswersExtend(history: seq<Pair>, p: Pair)
    ensures HashAnswers(history) <= HashAnswers(history + [p])
    ensures HeightAnswers(history) <= HeightAnswers(history + [p])
    ensures (p.height, p.hash) in HashAnswers(history + [p])
    ensures (p.hash, p.height) in HeightAnswers(history + [p])
  {
    assert p in history + [p];
    assert forall x :: x in history ==> x in history + [p];
  }

  // ------------------------------------------------------------------------
  // The gate
  // ------------------------------------------------------------------------

  class BlockGate {
    const cap: int
    var height: int
    var fetchToHeight: int
    var hashAtHeight: map<int, Hash>
    var blockWithHash: map<Hash, Block>
    var expireQueue: seq<Pair>
    var heightWaiters: map<int, seq<Chan>>
    var hashWaiters: map<Hash, seq<Chan>>
    // Channels hold one value; sending to one that holds a value panics.
    var nextChan: Chan
    var heightSent: map<Chan, Hash>
    var hashSent: map<Chan, int>
    var panicked: bool
    ghost var history: seq<Pair>  // all successful updates
    ghost var heightAsked: map<Chan, int>
    ghost var hashAsked: map<Chan, Hash>

    /** The cache is the window of the last updates, and the best block is the last. */
    ghost predicate Cached()
      reads this
    {
      && expireQueue == Window(history, cap)
      && Caches(expireQueue, hashAtHeight, blockWithHash)
      && height == (if history == [] then -1 else history[|history| - 1].height)
    }

    ghost predicate Waits()
      reads this
    {
      && !panicked
      && Waiting(heightWaiters, heightSent, heightAsked, HashAnswers(history))
      && Waiting(hashWaiters, hashSent, hashAsked, HeightAnswers(history))
      && (forall c :: c in heightAsked ==> c < nextChan)
      && (forall c :: c in hashAsked ==> c < nextChan)
    }

    /** Nobody waits for a block that is in the cache. */
    ghost predicate NobodyWaitsInVain()
      reads this
    {
      && (forall h :: h in heightWaiters ==> h !in hashAtHeight)
      && (forall x :: x in hashWaiters ==> x !in blockWithHash)
    }

    ghost predicate Valid()
      reads this
    {
      Cached() && Waits() && NobodyWaitsInVain()
    }

    constructor (capacity: int)
      ensures Valid() && cap == capacity && history == []
    {
      cap, height, fetchToHeight := capacity, -1, -1;
      hashAtHeight, blockWithHash, expireQueue := map[], map[], [];
      heightWaiters, hashWaiters := map[], map[];
      nextChan, heightSent, hashSent, panicked := 0, map[], map[], false;
      history, heightAsked, hashAsked := [], map[], map[];
    }

    /** BestBlock: with any capacity, there is one as soon as there was an update, and
        it is that of the last update. */
    method BestBlock() returns (block: Option<Block>)
      requires Valid()
      ensures cap >= 1 && history != [] ==>
        block.Some? && block.value.height == height == history[|history| - 1].height
        && block.value.hash == history[|history| - 1].hash
      ensures cap <= 0 || history == [] ==> block == None
    {
      if expireQueue != [] {
        CachedLast(expireQueue, hashAtHeight, blockWithHash);
      }
      if height !in hashAtHeight {
        return None;
      }
      var hash := hashAtHeight[height];
      block := if hash in blockWithHash then Some(blockWithHash[hash]) else None;
    }

    /** rotateIn: the new pair joins the queue, and a pair that no longer fits leaves it
        together with those of its cache entries that no other pair accounts for. */
    method RotateIn(h: int, hash: Hash)
      requires Caches(expireQueue + [Pair(h, hash)], hashAtHeight, blockWithHash)
      modifies `expireQueue, `hashAtHeight, `blockWithHash
      ensures
        var longer := old(expireQueue) + [Pair(h, hash)];
        expireQueue == if |longer| > cap then longer[1..] else longer
      ensures Caches(expireQueue, hashAtHeight, blockWithHash)
      ensures hashAtHeight.Keys <= old(hashAtHeight.Keys) && blockWithHash.Keys <= old(blockWithHash.Keys)
    {
      hide Caches;
      expireQueue := expireQueue + [Pair(h, hash)];
      if |expireQueue| > cap {
        PopKeepsCaches(expireQueue, hashAtHeight, blockWithHash);
        var oldest := expireQueue[0];
        expireQueue := expireQueue[1..];
        var hashLeft := HashInQueue(oldest.hash);
        if !hashLeft {
          blockWithHash := blockWithHash - {oldest.hash};
        }
        var heightLeft := HeightInQueue(oldest.height);
        if !heightLeft {
          hashAtHeight := hashAtHeight - {oldest.height};
        }
      }
    }

    method HashInQueue(hash: Hash) returns (found: bool)
      ensures found <==> KeyIn(ByHash(expireQueue), hash)
    {
      for i := 0 to |expireQueue|
        invariant forall j :: 0 <= j < i ==> ByHash(expireQueue)[j].key != hash
      {
        if expireQueue[i].hash == hash {
          assert ByHash(expireQueue)[i].key == hash;
          return true;
        }
      }
      return false;
    }

    method HeightInQueue(h: int) returns (found: bool)
      ensures found <==> KeyIn(ByHeight(expireQueue), h)
    {
      for i := 0 to |expireQueue|
        invariant forall j :: 0 <= j < i ==> ByHeight(expireQueue)[j].key != h
      {
        if expireQueue[i].height == h {
          assert ByHeight(expireQueue)[i].key == h;
          return true;
        }
      }
      return false;
    }

    /** signalHeight sends the hash to everyone waiting for the height. */
    method SignalHeight(h: int, hash: Hash)
      requires Waits() && (h, hash) in HashAnswers(history)
      modifies `heightWaiters, `heightSent, `panicked
      ensures Waits()
      ensures heightWaiters == old(heightWaiters) - {h}
      ensures h in old(heightWaiters) ==> forall c :: c in old(heightWaiters)[h] ==>
        c in heightSent && heightSent[c] == hash
      ensures forall c :: c in old(heightSent) ==> c in heightSent && heightSent[c] == old(heightSent)[c]
    {
      hide HashAnswers, HeightAnswers;
      if h !in heightWaiters {
        assert heightWaiters - {h} == heightWaiters;
        return;
      }
      var waitChans := heightWaiters[h];
      ghost var waiters, sent := heightWaiters, heightSent;
      heightWaiters := heightWaiters - {h};
      for i := 0 to |waitChans|
        invariant !panicked
        invariant forall c :: c in heightSent <==> c in sent || c in waitChans[..i]
        invariant forall c :: c in heightSent ==> heightSent[c] == if c in sent then sent[c] else hash
        modifies `heightSent, `panicked
      {
        var c := waitChans[i];
        assert WaitsAt(waiters, sent, heightAsked, h, i);
        assert c !in waitChans[..i];
        assert waitChans[..i + 1] == waitChans[..i] + [c];
        panicked := panicked || c in heightSent;
        if c !in heightSent {
          heightSent := heightSent[c := hash];
        }
      }
      assert waitChans[..|waitChans|] == waitChans;
      LeaveWaits(waiters, sent, heightAsked, HashAnswers(history), h, hash, heightSent);
      forall c | c in waitChans
        ensures heightSent[c] == hash
      {
        var i :| 0 <= i < |waitChans| && waitChans[i] == c;
        assert WaitsAt(waiters, sent, heightAsked, h, i);
      }
    }

    /** signalHash sends the height to everyone waiting for the hash. */
    method SignalHash(hash: Hash, h: int)
      requires Waits() && (hash, h) in HeightAnswers(history)
      modifies `hashWaiters, `hashSent, `panicked
      ensures Waits()
      ensures hashWaiters == old(hashWaiters) - {hash}
      ensures hash in old(hashWaiters) ==> forall c :: c in old(hashWaiters)[hash] ==>
        c in hashSent && hashSent[c] == h
      ensures forall c :: c in old(hashSent) ==> c in hashSent && hashSent[c] == old(hashSent)[c]
    {
      hide HashAnswers, HeightAnswers;
      if hash !in hashWaiters {
        assert hashWaiters - {hash} == hashWaiters;
        return;
      }
      var waitChans := hashWaiters[hash];
      ghost var waiters, sent := hashWaiters, hashSent;
      hashWaiters := hashWaiters - {hash};
      for i := 0 to |waitChans|
        invariant !panicked
        invariant forall c :: c in hashSent <==> c in sent || c in waitChans[..i]
        invariant forall c :: c in hashSent ==> hashSent[c] == if c in sent then sent[c] else h
        modifies `hashSent, `panicked
      {
        var c := waitChans[i];
        assert WaitsAt(waiters, sent, hashAsked, hash, i);
        assert c !in waitChans[..i];
        assert waitChans[..i + 1] == waitChans[..i] + [c];
        panicked := panicked || c in hashSent;
        if c !in hashSent {
          hashSent := hashSent[c := h];
        }
      }
      assert waitChans[..|waitChans|] == waitChans;
      LeaveWaits(waiters, sent, hashAsked, HeightAnswers(history), hash, h, hashSent);
      forall c | c in waitChans
        ensures hashSent[c] == h
      {
        var i :| 0 <= i < |waitChans| && waitChans[i] == c;
        assert WaitsAt(waiters, sent, hashAsked, hash, i);
      }
    }

    /** The RPC has a main chain block at the height, which is the one its hash names. */
    ghost predicate Serves(h: int, rpc: Rpc) {
      rpc.main(h).Some?
      && match rpc.BlockAtHeight(h)
         case None => false
         case Some(b) => b.height == h && Some(b.hash) == rpc.main(h)
    }

    /** The cache part of updateToBlock. */
    method Store(b: Block)
      requires Cached() && Waits()
      modifies `height, `hashAtHeight, `blockWithHash, `expireQueue, `history
      ensures Cached() && Waits()
      ensures history == old(history) + [Pair(b.height, b.hash)] && height == b.height
      ensures (b.height as int, b.hash) in HashAnswers(history) && (b.hash, b.height as int) in HeightAnswers(history)
      ensures hashAtHeight.Keys <= old(hashAtHeight.Keys) + {b.height as int}
      ensures blockWithHash.Keys <= old(blockWithHash.Keys) + {b.hash}
    {
      hide Caches, Window, Waiting, Latest, Mirrors, HashAnswers, HeightAnswers;
      ghost var pair := Pair(b.height, b.hash);
      PushKeepsCaches(expireQueue, hashAtHeight, blockWithHash, b);
      WindowMoves(history, pair, cap);
      height := b.height;
      hashAtHeight := hashAtHeight[b.height := b.hash];
      blockWithHash := blockWithHash[b.hash := b];
      RotateIn(b.height, b.hash);
      AnswersExtend(history, pair);
      AnswersGrow(heightWaiters, heightSent, heightAsked, HashAnswers(history), HashAnswers(history + [pair]));
      AnswersGrow(hashWaiters, hashSent, hashAsked, HeightAnswers(history), HeightAnswers(history + [pair]));
      history := history + [pair];
    }

    /** updateToBlock. It may be called with someone already queued for the height. */
    method UpdateToBlock(h: int, rpc: Rpc) returns (block: Option<Block>)
      requires Cached() && Waits()
      requires forall k :: k in heightWaiters && k != h ==> k !in hashAtHeight
      requires forall x :: x in hashWaiters ==> x !in blockWithHash
      modifies `height, `hashAtHeight, `blockWithHash, `expireQueue, `history
      modifies `heightWaiters, `hashWaiters, `heightSent, `hashSent, `panicked
      ensures block.Some? <==> Serves(h, rpc)
      ensures block.None? ==>
        && Cached() && Waits()
        && unchanged(`hashAtHeight) && unchanged(`blockWithHash) && unchanged(`history)
        && unchanged(`heightWaiters) && unchanged(`hashWaiters)
      ensures block.Some? ==>
        && Valid() && block == rpc.BlockAtHeight(h)
        && history == old(history) + [Pair(h, block.value.hash)]
        && height == h
        && heightWaiters == old(heightWaiters) - {h}
        && hashWaiters == old(hashWaiters) - {block.value.hash}
        && (h in old(heightWaiters) ==> forall c :: c in old(heightWaiters)[h] ==>
              c in heightSent && heightSent[c] == block.value.hash)
        && (block.value.hash in old(hashWaiters) ==> forall c :: c in old(hashWaiters)[block.value.hash] ==>
              c in hashSent && hashSent[c] == h)
    {
      hide Caches, Window, Waiting, Latest, Mirrors, HashAnswers, HeightAnswers, NoDup;
      var hash := rpc.main(h);
      if hash.None? {
        return None;
      }
      block := rpc.block(hash.value);
      if block.None? || block.value.height as int != h || hash.value != block.value.hash {
        return None;
      }
      Store(block.value);
      SignalHeight(h, hash.value);
      SignalHash(hash.value, h);
    }

    method QueueForHeight(h: int) returns (c: Chan)
      requires Waits()
      modifies `nextChan, `heightWaiters, `heightAsked
      ensures Waits() && c == old(nextChan)
      ensures c in heightAsked && heightAsked[c] == h
      ensures heightWaiters.Keys == old(heightWaiters.Keys) + {h} && c in heightWaiters[h]
    {
      hide Waiting, HashAnswers, HeightAnswers;
      c := nextChan;
      nextChan := nextChan + 1;
      JoinWaits(heightWaiters, heightSent, heightAsked, HashAnswers(history), h, c);
      heightWaiters := heightWaiters[h := (if h in heightWaiters then heightWaiters[h] else []) + [c]];
      heightAsked := heightAsked[c := h];
    }

    method QueueForHash(hash: Hash) returns (c: Chan)
      requires Waits()
      modifies `nextChan, `hashWaiters, `hashAsked
      ensures Waits() && c == old(nextChan)
      ensures c in hashAsked && hashAsked[c] == hash
      ensures hashWaiters.Keys == old(hashWaiters.Keys) + {hash} && c in hashWaiters[hash]
    {
      hide Waiting, HashAnswers, HeightAnswers;
      c := nextChan;
      nextChan := nextChan + 1;
      JoinWaits(hashWaiters, hashSent, hashAsked, HeightAnswers(history), hash, c);
      hashWaiters := hashWaiters[hash := (if hash in hashWaiters then hashWaiters[hash] else []) + [c]];
      hashAsked := hashAsked[c := hash];
    }

    /** WaitForHeight: a cached block is announced at once, a missing one below the
        fetch limit is fetched; when the fetch fails the caller gets no channel, though
        one stays queued. */
    method WaitForHeight(h: int, rpc: Rpc) returns (waitChan: Option<Chan>)
      requires Valid()
      modifies this
      ensures Valid()
      ensures waitChan.None? <==>
        h < 0 || (h !in old(hashAtHeight) && h <= old(fetchToHeight) && !Serves(h, rpc))
      ensures waitChan.None? && h >= 0 ==> h in heightWaiters && old(nextChan) in heightWaiters[h]
      ensures waitChan.Some? ==>
        && waitChan.value == old(nextChan)
        && waitChan.value in heightAsked && heightAsked[waitChan.value] == h
        && (h in old(hashAtHeight) ==>
              waitChan.value in heightSent && heightSent[waitChan.value] == old(hashAtHeight)[h])
        && (h !in old(hashAtHeight) && h <= old(fetchToHeight) ==>
              waitChan.value in heightSent && Some(heightSent[waitChan.value]) == rpc.main(h))
        && (h !in old(hashAtHeight) && h > old(fetchToHeight) ==>
              h in heightWaiters && waitChan.value in heightWaiters[h])
    {
      hide Caches, Window, Waiting, Latest, Mirrors, HashAnswers, HeightAnswers;
      if h < 0 {
        return None;
      }
      var c := QueueForHeight(h);
      if h in hashAtHeight {
        CachedWasUpdate(h);
        SignalHeight(h, hashAtHeight[h]);
      } else if h <= fetchToHeight {
        var block := UpdateToBlock(h, rpc);
        if block.None? {
          return None;
        }
      }
      waitChan := Some(c);
    }

    /** WaitForHash: a cached block is announced at once, otherwise the caller waits. */
    method WaitForHash(hash: Hash) returns (waitChan: Chan)
      requires Valid()
      modifies `nextChan, `hashWaiters, `hashAsked, `hashSent, `panicked
      ensures Valid()
      ensures waitChan == old(nextChan) && waitChan in hashAsked && hashAsked[waitChan] == hash
      ensures if hash in blockWithHash
              then waitChan in hashSent && hashSent[waitChan] == blockWithHash[hash].height
              else hash in hashWaiters && waitChan in hashWaiters[hash]
    {
      hide Caches, Window, Waiting, Latest, Mirrors, HashAnswers, HeightAnswers;
      waitChan := QueueForHash(hash);
      if hash in blockWithHash {
        CachedHashWasUpdate(hash);
        SignalHash(hash, blockWithHash[hash].height);
      }
    }

    /** What the gate holds in every reachable state: the last cap updates, each height
        and hash with the last of them, and for everyone who asked either the answer or
        a place in the queue of what was asked for. */
    lemma GateMeans()
      requires Valid()
      ensures forall i :: LastOfHeight(history, cap, i) ==>
        history[i].height in hashAtHeight && hashAtHeight[history[i].height] == history[i].hash
      ensures forall i :: LastOfHash(history, cap, i) ==>
        history[i].hash in blockWithHash && blockWithHash[history[i].hash].height as int == history[i].height
      ensures forall c :: c in heightAsked ==>
        if c in heightSent then Pair(heightAsked[c], heightSent[c]) in history
        else heightAsked[c] in heightWaiters && c in heightWaiters[heightAsked[c]] && heightAsked[c] !in hashAtHeight
      ensures forall c :: c in hashAsked ==>
        if c in hashSent then Pair(hashSent[c], hashAsked[c]) in history
        else hashAsked[c] in hashWaiters && c in hashWaiters[hashAsked[c]] && hashAsked[c] !in blockWithHash
    {
      hide Caches;
      CachesMean(history, cap, hashAtHeight, blockWithHash);
      forall c | c in heightAsked && c !in heightSent
        ensures heightAsked[c] in heightWaiters && c in heightWaiters[heightAsked[c]]
        ensures heightAsked[c] !in hashAtHeight
      {
        var h := heightAsked[c];
        assert h in heightWaiters;
      }
      forall c | c in heightSent
        ensures Pair(heightAsked[c], heightSent[c]) in history
      {
        assert (heightAsked[c], heightSent[c]) in HashAnswers(history);
        var p :| p in history && (p.height, p.hash) == (heightAsked[c], heightSent[c]);
        assert p == Pair(heightAsked[c], heightSent[c]);
      }
      forall c | c in hashSent
        ensures Pair(hashSent[c], hashAsked[c]) in history
      {
        assert (hashAsked[c], hashSent[c]) in HeightAnswers(history);
        var p :| p in history && (p.hash, p.height) == (hashAsked[c], hashSent[c]);
        assert p == Pair(hashSent[c], hashAsked[c]);
      }
    }

    lemma CachedWasUpdate(h: int)
      requires Cached() && h in hashAtHeight
      ensures (h, hashAtHeight[h]) in HashAnswers(history)
    {
      LatestIsEntry(ByHeight(expireQueue), h);
      var i :| 0 <= i < |expireQueue| && ByHeight(expireQueue)[i] == Entry(h, hashAtHeight[h]);
      assert expireQueue[i] in history;
    }

    lemma CachedHashWasUpdate(hash: Hash)
      requires Cached() && hash in blockWithHash
      ensures (hash, blockWithHash[hash].height as int) in HeightAnswers(history)
    {
      assert hash in HeightsOf(blockWithHash);
      LatestIsEntry(ByHash(expireQueue), hash);
      var i :| 0 <= i < |expireQueue| && ByHash(expireQueue)[i] == Entry(hash, blockWithHash[hash].height as int);
      assert expireQueue[i] in history;
    }
  }

  lemma {:induction false} LatestIsEntry<K, V>(q: seq<Entry<K, V>>, k: K)
    requires Latest(q, k).Some?
    ensures exists i :: 0 <= i < |q| && q[i] == Entry(k, Latest(q, k).value)
  {
    if q[|q| - 1].key != k {
      var init := q[..|q| - 1];
      LatestIsEntry(init, k);
      var i :| 0 <= i < |init| && init[i] == Entry(k, Latest(init, k).value);
      assert q[i] == init[i];
    }
  }
}
