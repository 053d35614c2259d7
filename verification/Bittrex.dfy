/** The Bittrex order book (exchanges/exchanges.go): updates arrive in any order and
    are held back in a bounded, sorted queue until the gap before them closes. The
    book must be what applying the updates in nonce order to the snapshot gives. */
module Bittrex {

  const MAX_QUEUE_SIZE := 50
  const ORDER_ADD := 0
  const ORDER_REMOVE := 1
  const ORDER_UPDATE := 2

  /** Rates are integers, in the units of eightPtKey. */
  datatype Order = Order(rate: int, quantity: int, kind: int)

  datatype Update = Update(nonce: int, buys: seq<Order>, sells: seq<Order>)

  /** The two sides, from rate to quantity. */
  datatype Book = Book(buys: map<int, int>, asks: map<int, int>)

  // ------------------------------------------------------------------------
  // In-order application
  // ------------------------------------------------------------------------

  /** A removal of an absent rate and an order of unknown kind change nothing. */
  function ApplyOrder(side: map<int, int>, o: Order): map<int, int> {
    if o.kind == ORDER_ADD || o.kind == ORDER_UPDATE then side[o.rate := o.quantity]
    else if o.kind == ORDER_REMOVE then side - {o.rate}
    else side
  }

  function ApplyOrders(side: map<int, int>, orders: seq<Order>): map<int, int> {
    if orders == [] then side
    else ApplyOrder(ApplyOrders(side, orders[..|orders| - 1]), orders[|orders| - 1])
  }

  function ApplyUpdate(book: Book, u: Update): Book {
    Book(ApplyOrders(book.buys, u.buys), ApplyOrders(book.asks, u.sells))
  }

  /** The book after the given updates, in the given order. */
  function Replay(book: Book, updates: seq<Update>): Book {
    if updates == [] then book
    else ApplyUpdate(Replay(book, updates[..|updates| - 1]), updates[|updates| - 1])
  }

  /** The side that a full order book describes: the last order at a rate counts. */
  function SideOf(orders: seq<Order>): map<int, int> {
    if orders == [] then map[]
    else
      var last := orders[|orders| - 1];
      SideOf(orders[..|orders| - 1])[last.rate := last.quantity]
  }

  /** Whether the i-th order is the last of known kind at its rate: 0 adds, 1 removes and
      2 updates. */
  ghost predicate LastAtRate(orders: seq<Order>, i: int) {
    && 0 <= i < |orders| && orders[i].kind in {0, 1, 2}
    && forall j :: i < j < |orders| ==> orders[j].rate != orders[i].rate || orders[j].kind !in {0, 1, 2}
  }

  /** How orders change a side: at each rate the last of known kind decides, an add or an
      update by its quantity and a removal by leaving the rate out; without one, the rate
      is as before. */
  ghost predicate Changed(before: map<int, int>, orders: seq<Order>, after: map<int, int>) {
    && (forall i :: LastAtRate(orders, i) ==>
          if orders[i].kind == 1 then orders[i].rate !in after
          else orders[i].rate in after && after[orders[i].rate] == orders[i].quantity)
    && (forall rate :: (forall i :: LastAtRate(orders, i) ==> orders[i].rate != rate) ==>
          && (rate in after <==> rate in before)
          && (rate in before ==> after[rate] == before[rate]))
  }

  /** In-order application is the only way to change a side like that. */
  lemma AppliedChange(side: map<int, int>, orders: seq<Order>, after: map<int, int>)
    ensures Changed(side, orders, after) <==> after == ApplyOrders(side, orders)
  {
    hide ApplyOrders;
    ApplyOrdersChange(side, orders);
    if Changed(side, orders, after) {
      ChangedUnique(side, orders, after, ApplyOrders(side, orders));
    }
  }

  /** An update changes the buys by its buys and the asks by its sells, and is the only
      way to get to that book. */
  lemma UpdateChange(book: Book, u: Update, after: Book)
    ensures (after == ApplyUpdate(book, u) <==>
             Changed(book.buys, u.buys, after.buys) && Changed(book.asks, u.sells, after.asks))
  {
    hide ApplyOrders, Changed;
    AppliedChange(book.buys, u.buys, after.buys);
    AppliedChange(book.asks, u.sells, after.asks);
  }

  lemma ChangedUnique(side: map<int, int>, orders: seq<Order>, a: map<int, int>, b: map<int, int>)
    requires Changed(side, orders, a) && Changed(side, orders, b)
    ensures a == b
  {
    hide LastAtRate;
    forall rate
      ensures rate in a <==> rate in b
      ensures rate in a && rate in b ==> a[rate] == b[rate]
    {
      if i :| LastAtRate(orders, i) && 0 <= i < |orders| && orders[i].rate == rate {
      }
    }
  }

  lemma {:induction false} ApplyOrdersChange(side: map<int, int>, orders: seq<Order>)
    ensures Changed(side, orders, ApplyOrders(side, orders))
  {
    if orders != [] {
      var init, o := orders[..|orders| - 1], orders[|orders| - 1];
      ApplyOrdersChange(side, init);
      ChangedOne(side, init, o, ApplyOrders(side, init));
      assert orders == init + [o];
    }
  }

  lemma ChangedOne(side: map<int, int>, orders: seq<Order>, o: Order, after: map<int, int>)
    requires Changed(side, orders, after)
    ensures Changed(side, orders + [o], ApplyOrder(after, o))
  {
    var more, next := orders + [o], ApplyOrder(after, o);
    assert more[|orders|] == o;
    assert forall i :: 0 <= i < |orders| ==> more[i] == orders[i];
    forall i | LastAtRate(more, i)
      ensures if more[i].kind == 1 then more[i].rate !in next
              else more[i].rate in next && next[more[i].rate] == more[i].quantity
    {
      if i < |orders| {
        assert LastAtRate(orders, i);
      }
    }
    forall rate | forall i :: LastAtRate(more, i) ==> more[i].rate != rate
      ensures rate in next <==> rate in side
      ensures rate in side ==> next[rate] == side[rate]
    {
      assert o.kind in {0, 1, 2} ==> LastAtRate(more, |orders|);
      forall i | LastAtRate(orders, i)
        ensures orders[i].rate != rate
      {
        assert orders[i].rate == rate ==> LastAtRate(more, i);
      }
    }
  }

  /** A full order book's side: at each rate the last order's quantity, whatever kinds the
      orders claim to have. */
  lemma {:induction false} SideOfIs(orders: seq<Order>)
    ensures forall rate :: rate in SideOf(orders) <==> exists i :: 0 <= i < |orders| && orders[i].rate == rate
    ensures forall i :: 0 <= i < |orders| && (forall j :: i < j < |orders| ==> orders[j].rate != orders[i].rate) ==>
      orders[i].rate in SideOf(orders) && SideOf(orders)[orders[i].rate] == orders[i].quantity
  {
    if orders != [] {
      var init, last := orders[..|orders| - 1], orders[|orders| - 1];
      SideOfIs(init);
      assert orders == init + [last];
      assert forall i :: 0 <= i < |init| ==> init[i] == orders[i];
      assert forall rate :: rate in SideOf(orders) <==> rate in SideOf(init) || rate == last.rate;
    }
  }

  // ------------------------------------------------------------------------
  // The queue
  // ------------------------------------------------------------------------

  ghost predicate Sorted(q: seq<Update>) {
    forall i, j :: 0 <= i < j < |q| ==> q[i].nonce <= q[j].nonce
  }

  /** Nothing in the queue can be applied next, or could have been before. */
  ghost predicate Gapped(q: seq<Update>, orderSeq: int) {
    forall u :: u in q ==> u.nonce > orderSeq + 1
  }

  /** The updates were applied one per nonce, starting right after the given one. */
  ghost predicate Consecutive(start: int, updates: seq<Update>) {
    forall i :: 0 <= i < |updates| ==> updates[i].nonce == start + 1 + i
  }

  /** The updates that come too early to be the first after a snapshot. */
  function Early(updates: seq<Update>, start: int): seq<Update> {
    if updates == [] then []
    else
      var u := updates[|updates| - 1];
      Early(updates[..|updates| - 1], start) + if u.nonce > start + 1 then [u] else []
  }

  lemma {:induction false} EarlyAre(updates: seq<Update>, start: int)
    ensures multiset(Early(updates, start)) <= multiset(updates)
    ensures forall u :: u in Early(updates, start) ==> u in updates && u.nonce > start + 1
    ensures |Early(updates, start)| <= |updates|
    ensures (exists u :: u in updates && u.nonce <= start + 1) ==> |Early(updates, start)| < |updates|
  {
    if updates != [] {
      var init, u := updates[..|updates| - 1], updates[|updates| - 1];
      assert updates == init + [u];
      EarlyAre(init, start);
    }
  }

  /** What the exchange holds, with the history that explains it: the snapshot, the
      updates applied to it, those queued when it came and those delivered since. */
  datatype View = View(
    orderSeq: int, queue: seq<Update>, book: Book,
    start: int, snapshot: Book, applied: seq<Update>,
    backlog: seq<Update>, delivered: seq<Update>, overflowed: bool)

  /** The invariant of every state from the snapshot on. */
  ghost predicate Inv(v: View) {
    && Sorted(v.queue) && |v.queue| <= MAX_QUEUE_SIZE
    // The book is the snapshot with exactly the updates up to orderSeq, each once.
    && v.orderSeq == v.start + |v.applied|
    && Consecutive(v.start, v.applied)
    && v.book == Replay(v.snapshot, v.applied)
    && (forall u :: u in v.applied ==> u in v.backlog || u in v.delivered)
    // Nothing is lost: what was delivered is covered by orderSeq or still queued.
    && multiset(v.queue) <= multiset(Early(v.delivered, v.start))
    && (!v.overflowed ==> forall u :: u in v.delivered ==> u.nonce <= v.orderSeq || u in v.queue)
    && (v.overflowed ==> |Early(v.delivered, v.start)| > MAX_QUEUE_SIZE)
    // The queue is drained lazily: only an arrival that was itself queued drains it.
    && (v.delivered == [] || v.delivered[|v.delivered| - 1].nonce <= v.orderSeq || Gapped(v.queue, v.orderSeq))
  }

  /** Everything in the list is covered by orderSeq or waits in the queue. */
  ghost predicate Kept(updates: seq<Update>, orderSeq: int, queue: seq<Update>) {
    forall u :: u in updates ==> u.nonce <= orderSeq || u in queue
  }

  /** Nothing queued comes after what is still to be processed. */
  ghost predicate NotAfter(queue: seq<Update>, taken: seq<Update>, i: nat) {
    forall u, j :: u in queue && i <= j < |taken| ==> u.nonce <= taken[j].nonce
  }

  /** Updates of one feed: the nonce determines the update. */
  ghost predicate FromFeed(updates: seq<Update>, feed: int -> Update, start: int) {
    forall u :: u in updates && u.nonce > start ==> u == feed(u.nonce)
  }

  function FeedUpTo(feed: int -> Update, start: int, n: nat): (updates: seq<Update>)
    ensures |updates| == n
  {
    seq(n, i requires 0 <= i < n => feed(start + 1 + i))
  }

  lemma AppliedAreFeed(v: View, feed: int -> Update)
    requires Inv(v) && FromFeed(v.backlog, feed, v.start) && FromFeed(v.delivered, feed, v.start)
    ensures v.applied == FeedUpTo(feed, v.start, |v.applied|)
  {
    forall i | 0 <= i < |v.applied|
      ensures v.applied[i] == feed(v.start + 1 + i)
    {
      assert v.applied[i] in v.applied;
    }
  }

  /** Confluence. After a snapshot with nonce s, once the updates s+1 to s+n, n at most
      50, have been delivered in any order, each once, and then s+n+1, the book is that
      of applying them in order, and the sequence number is s+n+1. */
  lemma Confluence(v: View, feed: int -> Update, n: nat)
    requires Inv(v) && n <= 50
    requires FromFeed(v.backlog, feed, v.start) && FromFeed(v.delivered, feed, v.start)
    requires forall u :: u in v.backlog ==> u.nonce <= v.start + n + 1
    requires |v.delivered| == n + 1 && v.delivered[n].nonce == v.start + n + 1
    requires forall k :: v.start < k <= v.start + n + 1 ==> feed(k).nonce == k && feed(k) in v.delivered
    requires forall u :: u in v.delivered ==> v.start < u.nonce <= v.start + n + 1
    ensures v.orderSeq == v.start + n + 1
    ensures v.book == Replay(v.snapshot, FeedUpTo(feed, v.start, n + 1))
  {
    AppliedAreFeed(v, feed);
    // The first update is never early, so the queue never held too many.
    hide Replay, Sorted;
    EarlyAre(v.delivered, v.start);
    assert feed(v.start + 1) in v.delivered && feed(v.start + 1).nonce <= v.start + 1;
    assert !v.overflowed;
    assert v.orderSeq <= v.start + n + 1 by {
      if |v.applied| > 0 {
        var last := v.applied[|v.applied| - 1];
        assert last in v.applied && last.nonce == v.orderSeq;
      }
    }
    // Were something missing, it would be queued and the queue not gapped.
    var next := feed(v.orderSeq + 1);
  }

  /** The order of delivery makes no difference. */
  lemma DeliveryOrderDoesNotMatter(a: View, b: View, feed: int -> Update, n: nat)
    requires Inv(a) && Inv(b) && n <= 50
    requires a.start == b.start && a.snapshot == b.snapshot && a.backlog == b.backlog == []
    requires multiset(a.delivered) == multiset(b.delivered)
    requires FromFeed(a.delivered, feed, a.start)
    requires |a.delivered| == |b.delivered| == n + 1
    requires a.delivered[n].nonce == a.start + n + 1 && b.delivered[n].nonce == a.start + n + 1
    requires forall k :: a.start < k <= a.start + n + 1 ==> feed(k).nonce == k && feed(k) in a.delivered
    requires forall u :: u in a.delivered ==> a.start < u.nonce <= a.start + n + 1
    ensures a.orderSeq == b.orderSeq && a.book == b.book
  {
    assert forall u :: u in b.delivered <==> u in a.delivered by {
      forall u
        ensures u in b.delivered <==> u in a.delivered
      {
        assert u in b.delivered <==> u in multiset(b.delivered);
        assert u in a.delivered <==> u in multiset(a.delivered);
      }
    }
    Confluence(a, feed, n);
    Confluence(b, feed, n);
  }

  // ------------------------------------------------------------------------
  // Sorting
  // ------------------------------------------------------------------------

  function Insert(q: seq<Update>, u: Update): seq<Update> {
    if q == [] || q[|q| - 1].nonce <= u.nonce then q + [u]
    else Insert(q[..|q| - 1], u) + [q[|q| - 1]]
  }

  lemma {:induction false} InsertAdds(q: seq<Update>, u: Update)
    ensures multiset(Insert(q, u)) == multiset(q) + multiset{u}
    ensures forall x :: x in Insert(q, u) ==> x == u || x in q
  {
    if q != [] && q[|q| - 1].nonce > u.nonce {
      InsertAdds(q[..|q| - 1], u);
      assert q == q[..|q| - 1] + [q[|q| - 1]];
    }
  }

  lemma {:induction false} InsertSorts(q: seq<Update>, u: Update)
    requires Sorted(q)
    ensures Sorted(Insert(q, u))
  {
    if q != [] && q[|q| - 1].nonce > u.nonce {
      var init, last := q[..|q| - 1], q[|q| - 1];
      InsertSorts(init, u);
      InsertAdds(init, u);
      assert forall x :: x in Insert(init, u) ==> x.nonce <= last.nonce;
    }
  }

  /** sort.Slice by nonce; nothing is promised about the order of equal nonces. */
  method SortByNonce(q: seq<Update>) returns (r: seq<Update>)
    ensures Sorted(r) && multiset(r) == multiset(q)
  {
    r := [];
    for i := 0 to |q|
      invariant Sorted(r) && multiset(r) == multiset(q[..i])
    {
      InsertSorts(r, q[i]);
      InsertAdds(r, q[i]);
      r := Insert(r, q[i]);
      assert q[..i + 1] == q[..i] + [q[i]];
    }
    assert q[..|q|] == q;
  }

  lemma ReplaySnoc(book: Book, updates: seq<Update>, u: Update)
    ensures Replay(book, updates + [u]) == ApplyUpdate(Replay(book, updates), u)
  {
    assert (updates + [u])[..|updates|] == updates;
  }

  // ------------------------------------------------------------------------
  // The exchange object
  // ------------------------------------------------------------------------

  class BittrexExchange {
    var queue: seq<Update>
    var obRequested: bool
    var orderSeq: int  // 0 until the full order book has come
    var buys: map<int, int>
    var asks: map<int, int>
    var wsErrors: nat  // failures reported with setWsFail
    ghost var start: int
    ghost var snapshot: Book
    ghost var applied: seq<Update>
    ghost var backlog: seq<Update>
    ghost var delivered: seq<Update>
    ghost var overflowed: bool

    ghost function State(): View
      reads this
    {
      View(orderSeq, queue, Book(buys, asks), start, snapshot, applied, backlog, delivered, overflowed)
    }

    ghost predicate Valid()
      reads this
    {
      && Sorted(queue) && |queue| <= MAX_QUEUE_SIZE
      && (orderSeq != 0 ==> Inv(State()))
    }

    /** The queue is in order and the book accounts for every update up to orderSeq. */
    ghost predicate Core()
      reads this
    {
      && Sorted(queue) && |queue| <= MAX_QUEUE_SIZE
      && orderSeq == start + |applied|
      && Consecutive(start, applied)
      && Book(buys, asks) == Replay(snapshot, applied)
    }

    constructor ()
      ensures Valid() && orderSeq == 0 && queue == []
    {
      queue, obRequested, orderSeq, buys, asks, wsErrors := [], false, 0, map[], map[], 0;
      start, snapshot, applied, backlog, delivered, overflowed := 0, Book(map[], map[]), [], [], [], false;
    }

    /** One order on one side of the book. */
    method ProcessOrderbookPoint(order: Order, side: map<int, int>) returns (after: map<int, int>)
      modifies `wsErrors
      ensures after == ApplyOrder(side, order)
      ensures wsErrors == old(wsErrors) +
        if order.kind == ORDER_ADD || order.kind == ORDER_UPDATE
           || (order.kind == ORDER_REMOVE && order.rate in side) then 0 else 1
    {
      if order.kind == ORDER_ADD || order.kind == ORDER_UPDATE {
        return side[order.rate := order.quantity];
      }
      if order.kind == ORDER_REMOVE {
        if order.rate !in side {
          wsErrors := wsErrors + 1;
          return side;
        }
        return side - {order.rate};
      }
      wsErrors := wsErrors + 1;
      return side;
    }

    /** Queues an update and returns the lowest nonce, or empties a queue that has
        become too long. */
    method QueueOrderbookUpdate(update: Update) returns (nextNonce: int)
      requires |queue| <= MAX_QUEUE_SIZE
      modifies `queue, `wsErrors, `overflowed
      ensures Sorted(queue)
      ensures old(|queue|) == MAX_QUEUE_SIZE ==>
        queue == [] && nextNonce == -1 && overflowed && wsErrors == old(wsErrors) + 1
      ensures old(|queue|) < MAX_QUEUE_SIZE ==>
        && multiset(queue) == multiset(old(queue)) + multiset{update}
        && |queue| == old(|queue|) + 1
        && (forall u :: u in queue <==> u in old(queue) || u == update)
        && nextNonce == queue[0].nonce
        && (forall u :: u in queue ==> nextNonce <= u.nonce)
        && overflowed == old(overflowed)
    {
      ghost var before := queue;
      queue := queue + [update];
      var sorted := SortByNonce(queue);
      SamePermutation(sorted, before + [update]);
      queue := sorted;
      if |queue| > MAX_QUEUE_SIZE {
        wsErrors := wsErrors + 1;
        queue := [];
        overflowed := true;
        return -1;
      }
      return queue[0].nonce;
    }

    /** A premature update applies nothing when it overflows the queue, nor when the queue
        had nothing due. */
    twostate predicate Held()
      reads this
    {
      && (old(|queue|) == MAX_QUEUE_SIZE ==> queue == [] && applied == old(applied))
      && (old(|queue|) < MAX_QUEUE_SIZE && Gapped(old(queue), old(orderSeq)) ==>
            |queue| == old(|queue|) + 1 && applied == old(applied))
    }

    /** processQueue: the queue is taken over and processed in order, what is still
        premature goes back. It leaves no update behind that could be applied, so the
        nested calls never drain the queue again. */
    method ProcessQueue()
      requires Core()
      modifies `queue, `orderSeq, `buys, `asks, `wsErrors, `applied, `overflowed
      ensures Core() && Gapped(queue, orderSeq)
      ensures old(applied) <= applied
      ensures forall k :: |old(applied)| <= k < |applied| ==> applied[k] in old(queue)
      ensures multiset(queue) <= multiset(old(queue))
      ensures Kept(old(queue), orderSeq, queue)
      ensures overflowed == old(overflowed)
      decreases 1
    {
      hide Replay, ApplyUpdate, Held, Sorted, Consecutive, Kept, NotAfter;
      var taken := queue;
      NothingQueued(taken, orderSeq);
      queue := [];
      for i := 0 to |taken|
        invariant Core() && Gapped(queue, orderSeq) && |queue| <= i
        invariant NotAfter(queue, taken, i)
        invariant old(applied) <= applied
        invariant forall k :: |old(applied)| <= k < |applied| ==> applied[k] in taken
        invariant multiset(queue) <= multiset(taken[..i])
        invariant Kept(taken[..i], orderSeq, queue)
        invariant overflowed == old(overflowed)
      {
        ghost var held, before, seqBefore := queue, applied, orderSeq;
        NextToDrain(held, taken, i);
        ProcessOrderbookUpdate(taken[i], true);
        DrainedOne(taken, i, held, queue, |old(applied)|, before, applied, seqBefore, orderSeq);
      }
      assert taken[..|taken|] == taken;
    }

    /** processOrderbookUpdate: old updates are dropped, the next one is applied, and a
        premature one is queued, which drains the queue if its head is due. */
    method ProcessOrderbookUpdate(update: Update, ghost draining: bool)
      requires Core()
      requires draining ==>
        Gapped(queue, orderSeq) && |queue| < MAX_QUEUE_SIZE && forall u :: u in queue ==> u.nonce <= update.nonce
      modifies `queue, `orderSeq, `buys, `asks, `wsErrors, `applied, `overflowed
      ensures Core()
      ensures old(applied) <= applied
      ensures forall k :: |old(applied)| <= k < |applied| ==> applied[k] in old(queue) || applied[k] == update
      ensures multiset(queue) <= multiset(old(queue)) + multiset{update}
      ensures update.nonce <= old(orderSeq) ==> queue == old(queue) && applied == old(applied)
      ensures update.nonce == old(orderSeq) + 1 ==>
        && queue == old(queue) && applied == old(applied) + [update]
        && Changed(old(buys), update.buys, buys) && Changed(old(asks), update.sells, asks)
      ensures update.nonce > old(orderSeq) + 1 ==> Gapped(queue, orderSeq)
      ensures overflowed == (old(overflowed) || (update.nonce > old(orderSeq) + 1 && old(|queue|) == MAX_QUEUE_SIZE))
      ensures update.nonce <= old(orderSeq) + 1 || old(|queue|) < MAX_QUEUE_SIZE ==>
        Kept(old(queue) + [update], orderSeq, queue)
      ensures update.nonce > old(orderSeq) + 1 ==> Held()
      ensures draining ==>
        && Gapped(queue, orderSeq) && |queue| <= old(|queue|) + 1
        && forall u :: u in queue ==> u in old(queue) || u == update
      decreases if draining then 0 else 2
    {
      hide Replay, ApplyUpdate, Sorted, Changed;
      if update.nonce <= orderSeq {
        return;
      }
      if update.nonce != orderSeq + 1 {
        var nextNonce := QueueOrderbookUpdate(update);
        if nextNonce <= orderSeq + 1 {
          ghost var due, before := queue, applied;
          ProcessQueue();
          assert |before| < |applied| ==> applied[|before|] in due;
        }
        return;
      }
      orderSeq := orderSeq + 1;
      ApplySides(update);
      ReplaySnoc(snapshot, applied, update);
      applied := applied + [update];
    }

    /** The orders of an update, asks before bids. */
    method ApplySides(update: Update)
      modifies `buys, `asks, `wsErrors
      ensures Book(buys, asks) == ApplyUpdate(old(Book(buys, asks)), update)
      ensures Changed(old(buys), update.buys, buys) && Changed(old(asks), update.sells, asks)
    {
      hide Changed;
      UpdateChange(Book(buys, asks), update, ApplyUpdate(Book(buys, asks), update));
      for i := 0 to |update.sells|
        invariant asks == ApplyOrders(old(asks), update.sells[..i]) && buys == old(buys)
      {
        assert update.sells[..i + 1][..i] == update.sells[..i];
        asks := ProcessOrderbookPoint(update.sells[i], asks);
      }
      assert update.sells[..|update.sells|] == update.sells;
      for i := 0 to |update.buys|
        invariant buys == ApplyOrders(old(buys), update.buys[..i])
        invariant asks == ApplyOrders(old(asks), update.sells)
      {
        assert update.buys[..i + 1][..i] == update.buys[..i];
        buys := ProcessOrderbookPoint(update.buys[i], buys);
      }
      assert update.buys[..|update.buys|] == update.buys;
    }

    /** The full order book: updates queued so far are applied as far as they connect,
        and the rest of them is dropped. A nonce of 0 is refused by the caller, and
        would leave the exchange waiting for a book. */
    method ProcessFullOrderbook(book: Update)
      requires Valid()
      modifies this
      ensures Valid() && Inv(State()) && orderSeq >= book.nonce
      ensures start == book.nonce && snapshot == Book(SideOf(book.buys), SideOf(book.sells))
      ensures backlog == old(queue) && delivered == [] && queue == [] && !overflowed
      ensures forall u :: u in backlog ==> u.nonce != orderSeq + 1
    {
      hide Replay, ApplyUpdate, Inv, SideOf, Sorted, Consecutive;
      buys := TranslateOrderbook(book.buys);
      asks := TranslateOrderbook(book.sells);
      orderSeq := book.nonce;
      start, snapshot, applied := book.nonce, Book(buys, asks), [];
      backlog, delivered, overflowed := queue, [], false;
      NothingApplied(start, snapshot);
      ProcessQueue();
      queue := [];
      SnapshotInv(State());
    }

    method TranslateOrderbook(orders: seq<Order>) returns (side: map<int, int>)
      ensures side == SideOf(orders)
    {
      side := map[];
      for i := 0 to |orders|
        invariant side == SideOf(orders[..i])
      {
        assert orders[..i + 1][..i] == orders[..i];
        side := side[orders[i].rate := orders[i].quantity];
      }
      assert orders[..|orders|] == orders;
    }

    /** processNextUpdate: queued before the full order book has come, processed after. */
    method ProcessNextUpdate(update: Update)
      requires Valid()
      modifies this
      ensures Valid()
      ensures old(orderSeq) == 0 ==>
        && orderSeq == 0 && obRequested
        && (old(|queue|) < MAX_QUEUE_SIZE ==> multiset(queue) == multiset(old(queue)) + multiset{update})
        && (old(|queue|) == MAX_QUEUE_SIZE ==> queue == [] && wsErrors == old(wsErrors) + 1)
      ensures old(orderSeq) != 0 ==>
        && Inv(State()) && orderSeq >= old(orderSeq)
        && start == old(start) && snapshot == old(snapshot) && backlog == old(backlog)
        && old(applied) <= applied
        && delivered == old(delivered) + [update]
        && overflowed == (old(overflowed) || (update.nonce > old(orderSeq) + 1 && old(|queue|) == MAX_QUEUE_SIZE))
      ensures old(orderSeq) != 0 && update.nonce == old(orderSeq) + 1 ==>
        && orderSeq == old(orderSeq) + 1 && queue == old(queue)
        && Changed(old(buys), update.buys, buys) && Changed(old(asks), update.sells, asks)
      ensures old(orderSeq) != 0 && update.nonce <= old(orderSeq) ==>
        orderSeq == old(orderSeq) && queue == old(queue) && buys == old(buys) && asks == old(asks)
      ensures old(orderSeq) != 0 && update.nonce > old(orderSeq) + 1 ==>
        && (old(|queue|) == MAX_QUEUE_SIZE ==> queue == [] && orderSeq == old(orderSeq))
        && (old(|queue|) < MAX_QUEUE_SIZE && Gapped(old(queue), old(orderSeq)) ==>
              |queue| == old(|queue|) + 1 && Gapped(queue, orderSeq) && orderSeq == old(orderSeq))
    {
      hide Replay, ApplyUpdate, Inv, Changed;
      if orderSeq == 0 {
        obRequested := true;
        var _ := QueueOrderbookUpdate(update);
        return;
      }
      ghost var before := State();
      assert Core() by {
        InvAccounts(before);
      }
      ProcessOrderbookUpdate(update, false);
      delivered := delivered + [update];
      NextKeepsInv(before, State(), update);
    }

    /** connectWs starts over, and asks for the order book anew once connected. */
    method Reset(connected: bool)
      modifies `queue, `orderSeq, `obRequested, `wsErrors
      ensures Valid() && orderSeq == 0 && queue == []
      ensures obRequested == (old(obRequested) && !connected)
      ensures wsErrors == old(wsErrors) + if connected then 0 else 1
    {
      queue, orderSeq := [], 0;
      if !connected {
        wsErrors := wsErrors + 1;
        return;
      }
      obRequested := false;
    }
  }

  /** Fifty is the most: of fifty-one updates and the next, the first may come when all
      others are queued, and since it does not drain the queue, the last overflows it. */
  method FiftyOneOverflow(x: BittrexExchange, feed: int -> Update)
    requires x.Valid() && x.orderSeq == x.start > 0 && x.queue == [] && x.delivered == [] && !x.overflowed
    requires forall k :: feed(k).nonce == k
    modifies x
    ensures multiset(x.delivered) == multiset(FeedUpTo(feed, old(x.start), 52))
    ensures x.delivered[|x.delivered| - 1] == feed(old(x.start) + 52)
    ensures x.overflowed && x.queue == [] && x.orderSeq == old(x.start) + 1
  {
    hide Inv;
    var s := x.orderSeq;
    for n := 0 to MAX_QUEUE_SIZE
      invariant x.Valid() && x.start == s && x.orderSeq == s && |x.queue| == n && Gapped(x.queue, s)
      invariant x.delivered == FeedUpTo(feed, s + 1, n) && !x.overflowed
    {
      x.ProcessNextUpdate(feed(s + 2 + n));
    }
    x.ProcessNextUpdate(feed(s + 1));
    x.ProcessNextUpdate(feed(s + MAX_QUEUE_SIZE + 2));
    var early := FeedUpTo(feed, s + 1, MAX_QUEUE_SIZE);
    assert FeedUpTo(feed, s, MAX_QUEUE_SIZE + 2) == [feed(s + 1)] + early + [feed(s + MAX_QUEUE_SIZE + 2)];
    assert x.delivered == early + [feed(s + 1)] + [feed(s + MAX_QUEUE_SIZE + 2)];
  }

  lemma NothingQueued(taken: seq<Update>, orderSeq: int)
    ensures Sorted([]) && NotAfter([], taken, 0) && Kept(taken[..0], orderSeq, [])
  {
  }

  lemma NextToDrain(held: seq<Update>, taken: seq<Update>, i: nat)
    requires i < |taken| && NotAfter(held, taken, i)
    ensures forall u :: u in held ==> u.nonce <= taken[i].nonce
  {
  }

  /** One update drained: what is queued and applied then is still of the queue drained,
      in order, and nothing drained so far is lost. */
  lemma DrainedOne(taken: seq<Update>, i: nat, held: seq<Update>, queue: seq<Update>,
                   from: nat, before: seq<Update>, applied: seq<Update>, seqBefore: int, orderSeq: int)
    requires i < |taken| && multiset(held) <= multiset(taken[..i]) && Sorted(taken)
    requires multiset(queue) <= multiset(held) + multiset{taken[i]}
    requires before <= applied && forall k :: from <= k < |before| ==> before[k] in taken
    requires forall k :: |before| <= k < |applied| ==> applied[k] in held || applied[k] == taken[i]
    requires NotAfter(held, taken, i) && forall u :: u in queue ==> u in held || u == taken[i]
    requires Kept(taken[..i], seqBefore, held) && Kept(held + [taken[i]], orderSeq, queue) && seqBefore <= orderSeq
    ensures multiset(queue) <= multiset(taken[..i + 1])
    ensures forall k :: from <= k < |applied| ==> applied[k] in taken
    ensures NotAfter(queue, taken, i + 1) && Kept(taken[..i + 1], orderSeq, queue)
  {
    assert taken[..i + 1] == taken[..i] + [taken[i]];
    forall k | from <= k < |applied|
      ensures applied[k] in taken
    {
      if k < |before| {
        assert applied[k] == before[k];
      } else if applied[k] != taken[i] {
        assert applied[k] in multiset(held);
        assert applied[k] in taken[..i];
      }
    }
  }

  lemma NothingApplied(start: int, book: Book)
    ensures Replay(book, []) == book && Consecutive(start, [])
  {
  }

  lemma SamePermutation(a: seq<Update>, b: seq<Update>)
    requires multiset(a) == multiset(b)
    ensures |a| == |b| && forall u :: u in a <==> u in b
  {
    assert |a| == |multiset(a)| == |multiset(b)| == |b|;
    forall u
      ensures u in a <==> u in b
    {
      assert u in multiset(a) <==> u in multiset(b);
    }
  }

  /** The invariant just after a snapshot. */
  lemma SnapshotInv(v: View)
    requires v.queue == [] && v.delivered == [] && !v.overflowed
    requires v.orderSeq == v.start + |v.applied| && Consecutive(v.start, v.applied)
    requires v.book == Replay(v.snapshot, v.applied)
    requires forall k :: 0 <= k < |v.applied| ==> v.applied[k] in v.backlog
    ensures Inv(v)
  {
  }

  lemma InvAccounts(v: View)
    requires Inv(v)
    ensures Sorted(v.queue) && |v.queue| <= MAX_QUEUE_SIZE
    ensures v.orderSeq == v.start + |v.applied| && Consecutive(v.start, v.applied)
    ensures v.book == Replay(v.snapshot, v.applied)
  {
  }

  /** What is queued was delivered early, and a full queue takes as many deliveries. */
  lemma QueuedWereEarly(q: seq<Update>, delivered: seq<Update>, start: int)
    requires multiset(q) <= multiset(Early(delivered, start))
    ensures forall u :: u in q ==> u in delivered
    ensures |q| <= |Early(delivered, start)|
  {
    EarlyAre(delivered, start);
    forall u | u in q
      ensures u in delivered
    {
      assert u in multiset(q);
      assert u in multiset(Early(delivered, start));
      assert u in Early(delivered, start);
    }
    var rest := multiset(Early(delivered, start)) - multiset(q);
    assert multiset(Early(delivered, start)) == multiset(q) + rest;
  }

  lemma EarlyOne(updates: seq<Update>, u: Update, start: int)
    ensures Early(updates + [u], start) == Early(updates, start) + if u.nonce > start + 1 then [u] else []
  {
    assert (updates + [u])[..|updates|] == updates;
  }

  /** An arrival keeps the invariant, whichever way it is dealt with. */
  lemma NextKeepsInv(v: View, w: View, update: Update)
    requires Inv(v)
    requires w.start == v.start && w.snapshot == v.snapshot && w.backlog == v.backlog
    requires w.delivered == v.delivered + [update]
    requires Sorted(w.queue) && |w.queue| <= MAX_QUEUE_SIZE
    requires w.orderSeq == w.start + |w.applied| && Consecutive(w.start, w.applied)
    requires w.book == Replay(w.snapshot, w.applied)
    requires v.applied <= w.applied
    requires forall k :: |v.applied| <= k < |w.applied| ==> w.applied[k] in v.queue || w.applied[k] == update
    requires multiset(w.queue) <= multiset(v.queue) + multiset{update}
    requires update.nonce <= v.orderSeq + 1 ==> multiset(w.queue) == multiset(v.queue)
    requires update.nonce <= v.orderSeq + 1 || Gapped(w.queue, w.orderSeq)
    requires update.nonce == v.orderSeq + 1 ==> w.orderSeq == v.orderSeq + 1
    requires w.overflowed == (v.overflowed || (update.nonce > v.orderSeq + 1 && |v.queue| == MAX_QUEUE_SIZE))
    requires update.nonce <= v.orderSeq + 1 || |v.queue| < MAX_QUEUE_SIZE ==>
      forall u :: u in v.queue + [update] ==> u.nonce <= w.orderSeq || u in w.queue
    ensures Inv(w)
  {
    hide Replay, Sorted, Early, Consecutive;
    QueuedWereEarly(v.queue, v.delivered, v.start);
    EarlyOne(v.delivered, update, v.start);
    forall u | u in w.applied
      ensures u in w.backlog || u in w.delivered
    {
      var k :| 0 <= k < |w.applied| && w.applied[k] == u;
      if k < |v.applied| {
        assert v.applied[k] == u;
        assert u in v.applied;
      }
    }
    assert multiset(w.delivered) == multiset(v.delivered) + multiset{update};
  }
}
