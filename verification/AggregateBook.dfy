/** The aggregated order book of the exchange bot (exchanges/bot.go): the books of all
    exchanges that report depth, merged by price, with one volume per exchange. */
module AggregateBook {
  import opened Common

  /** Prices are integers, in the units of eightPtKey. Exchanges go by the alphabetical
      rank of their tokens. */
  datatype DepthPoint = DepthPoint(price: int, quantity: int)

  datatype AgBookPt = AgBookPt(price: int, volumes: seq<int>)

  datatype DepthData = DepthData(time: int, bids: seq<DepthPoint>, asks: seq<DepthPoint>)

  datatype Aggregate = Aggregate(tokens: seq<int>, btcIndex: int, price: int, updateTimes: seq<int>,
                                 time: int, bids: seq<AgBookPt>, asks: seq<AgBookPt>, expiration: int)

  // ------------------------------------------------------------------------
  // What an aggregated side says
  // ------------------------------------------------------------------------

  /** One exchange's own book: the last quantity counts where a price repeats. */
  function BookOf(points: seq<DepthPoint>): map<int, int> {
    if points == [] then map[]
    else
      var last := points[|points| - 1];
      BookOf(points[..|points| - 1])[last.price := last.quantity]
  }

  function Quantity(points: seq<DepthPoint>, price: int): int {
    if price in BookOf(points) then BookOf(points)[price] else 0
  }

  predicate Before(a: int, b: int, reverse: bool) {
    if reverse then b < a else a < b
  }

  ghost predicate StrictlySorted(keys: seq<int>, reverse: bool) {
    forall i, j :: 0 <= i < j < |keys| ==> Before(keys[i], keys[j], reverse)
  }

  /** The volumes at a price: one slot for each exchange, zero where it has no order. */
  ghost predicate VolumesAt(volumes: seq<int>, books: seq<seq<DepthPoint>>, price: int) {
    && |volumes| == |books|
    && forall i :: 0 <= i < |books| ==> volumes[i] == Quantity(books[i], price)
  }

  /** A side that aggregates the books: prices strictly in order, exactly those at which
      some exchange has an order, each with its volumes. */
  ghost predicate Aggregates(side: seq<AgBookPt>, books: seq<seq<DepthPoint>>, reverse: bool) {
    && (forall i, j :: 0 <= i < j < |side| ==> Before(side[i].price, side[j].price, reverse))
    && (forall i :: 0 <= i < |side| ==> VolumesAt(side[i].volumes, books, side[i].price))
    && (forall i :: 0 <= i < |side| ==> Priced(books, |books|, side[i].price))
    && (forall p :: Priced(books, |books|, p) ==> HasPrice(side, p))
  }

  ghost predicate HasPrice(side: seq<AgBookPt>, price: int) {
    exists i :: 0 <= i < |side| && side[i].price == price
  }

  /** One of the first n exchanges has an order at the price. */
  ghost predicate Priced(books: seq<seq<DepthPoint>>, n: nat, price: int)
    requires n <= |books|
  {
    exists i :: 0 <= i < n && price in BookOf(books[i])
  }

  /** The point is the last one at its price. */
  ghost predicate LastAtPrice(points: seq<DepthPoint>, j: int) {
    0 <= j < |points| && forall n :: j < n < |points| ==> points[n].price != points[j].price
  }

  ghost predicate HasPoint(points: seq<DepthPoint>, price: int) {
    exists j :: 0 <= j < |points| && points[j].price == price
  }

  ghost predicate SomeHasPoint(books: seq<seq<DepthPoint>>, price: int) {
    exists i :: 0 <= i < |books| && HasPoint(books[i], price)
  }

  lemma {:induction false} BookOfIs(points: seq<DepthPoint>)
    ensures forall p :: p in BookOf(points) <==> HasPoint(points, p)
    ensures forall j :: LastAtPrice(points, j) ==>
      points[j].price in BookOf(points) && BookOf(points)[points[j].price] == points[j].quantity
  {
    if points != [] {
      var init, last := points[..|points| - 1], points[|points| - 1];
      assert forall j :: 0 <= j < |init| ==> init[j] == points[j];
      BookOfIs(init);
      assert points[|points| - 1].price == last.price;
      forall p
        ensures HasPoint(points, p) <==> HasPoint(init, p) || p == last.price
      {
        if HasPoint(init, p) {
          var j :| 0 <= j < |init| && init[j].price == p;
          assert points[j].price == p;
        }
      }
      forall j | LastAtPrice(points, j)
        ensures points[j].price in BookOf(points) && BookOf(points)[points[j].price] == points[j].quantity
      {
        if j < |init| {
          assert LastAtPrice(init, j);
          assert last.price != points[j].price;
        }
      }
    }
  }

  /** An aggregated side in terms of the exchanges' points: bids from the highest price
      down, asks from the lowest up, the prices of all points, and at each of them for
      each exchange the quantity of its last point there, or 0 if it has none. */
  lemma AggregatesMean(side: seq<AgBookPt>, books: seq<seq<DepthPoint>>, reverse: bool)
    requires Aggregates(side, books, reverse)
    ensures forall k, l :: 0 <= k < l < |side| ==>
      if reverse then side[k].price > side[l].price else side[k].price < side[l].price
    ensures forall k :: 0 <= k < |side| ==> SomeHasPoint(books, side[k].price)
    ensures forall i, j :: 0 <= i < |books| && 0 <= j < |books[i]| ==> HasPrice(side, books[i][j].price)
    ensures forall k :: 0 <= k < |side| ==> |side[k].volumes| == |books|
    ensures forall k, i, j :: 0 <= k < |side| && 0 <= i < |books| && LastAtPrice(books[i], j)
                              && books[i][j].price == side[k].price ==>
      side[k].volumes[i] == books[i][j].quantity
    ensures forall k, i :: 0 <= k < |side| && 0 <= i < |books| && !HasPoint(books[i], side[k].price) ==>
      side[k].volumes[i] == 0
  {
    hide BookOf;
    forall i | 0 <= i < |books|
      ensures forall p :: p in BookOf(books[i]) <==> HasPoint(books[i], p)
      ensures forall j :: LastAtPrice(books[i], j) ==> Quantity(books[i], books[i][j].price) == books[i][j].quantity
    {
      BookOfIs(books[i]);
      assert forall j :: LastAtPrice(books[i], j) ==> HasPoint(books[i], books[i][j].price);
    }
    forall i, j | 0 <= i < |books| && 0 <= j < |books[i]|
      ensures HasPrice(side, books[i][j].price)
    {
      assert HasPoint(books[i], books[i][j].price);
      assert Priced(books, |books|, books[i][j].price);
    }
    forall k | 0 <= k < |side|
      ensures SomeHasPoint(books, side[k].price)
    {
      assert Priced(books, |books|, side[k].price);
      var i :| 0 <= i < |books| && side[k].price in BookOf(books[i]);
      assert HasPoint(books[i], side[k].price);
    }
    forall k | 0 <= k < |side|
      ensures VolumesAt(side[k].volumes, books, side[k].price)
    {
    }
  }

  /** The part of an aggregated side that belongs to one exchange. */
  function Project(side: seq<AgBookPt>, i: nat, own: set<int>): map<int, int>
    requires forall e :: e in side ==> i < |e.volumes|
  {
    if side == [] then map[]
    else
      var last := side[|side| - 1];
      var rest := Project(side[..|side| - 1], i, own);
      if last.price in own then rest[last.price := last.volumes[i]] else rest
  }

  lemma {:induction false} ProjectIs(side: seq<AgBookPt>, books: seq<seq<DepthPoint>>, i: nat, own: map<int, int>)
    requires i < |books| && own == BookOf(books[i])
    requires forall k :: 0 <= k < |side| ==> VolumesAt(side[k].volumes, books, side[k].price)
    ensures forall e :: e in side ==> i < |e.volumes|
    ensures forall p :: p in Project(side, i, own.Keys) <==> p in own && HasPrice(side, p)
    ensures forall p :: p in Project(side, i, own.Keys) ==> Project(side, i, own.Keys)[p] == own[p]
  {
    if side != [] {
      var init, last := side[..|side| - 1], side[|side| - 1];
      assert forall k :: 0 <= k < |init| ==> init[k] == side[k];
      ProjectIs(init, books, i, own);
      forall p
        ensures HasPrice(side, p) <==> p == last.price || HasPrice(init, p)
      {
        if HasPrice(init, p) {
          var k :| 0 <= k < |init| && init[k].price == p;
          assert side[k].price == p;
        }
        assert side[|side| - 1] == last;
      }
    }
  }

  /** Projecting an aggregated side onto an exchange gives back its own book, and at all
      other prices its volume is zero. */
  lemma ProjectionIsOwnBook(side: seq<AgBookPt>, books: seq<seq<DepthPoint>>, reverse: bool, i: nat)
    requires Aggregates(side, books, reverse) && i < |books|
    ensures forall e :: e in side ==> |e.volumes| == |books|
    ensures Project(side, i, BookOf(books[i]).Keys) == BookOf(books[i])
    ensures forall e :: e in side && e.price !in BookOf(books[i]) ==> e.volumes[i] == 0
  {
    hide BookOf;
    var own := BookOf(books[i]);
    ProjectIs(side, books, i, own);
    var mine := Project(side, i, own.Keys);
    forall p
      ensures p in mine <==> p in own
    {
      if p in own {
        assert Priced(books, |books|, p);
      }
    }
    assert forall p :: p in mine ==> mine[p] == own[p];
    assert mine.Keys == own.Keys;
    assert mine == own;
  }

  /** The last key is beyond all others. */
  lemma LastKey(keys: seq<int>, reverse: bool)
    requires StrictlySorted(keys, reverse) && keys != []
    ensures StrictlySorted(keys[..|keys| - 1], reverse)
    ensures Elems(keys[..|keys| - 1]) == Elems(keys) - {keys[|keys| - 1]}
    ensures keys[|keys| - 1] in Elems(keys)
    ensures forall k :: k in Elems(keys) ==> k == keys[|keys| - 1] || Before(k, keys[|keys| - 1], reverse)
  {
    ElemsSnoc(keys);
    assert forall i :: 0 <= i < |keys| - 1 ==> keys[..|keys| - 1][i] == keys[i];
    assert keys[|keys| - 1] in keys;
  }

  lemma Occupied(keys: seq<int>)
    ensures keys == [] <==> Elems(keys) == {}
  {
    if keys != [] {
      assert keys[0] in Elems(keys);
    }
  }

  lemma {:induction false} SortedUnique(a: seq<int>, b: seq<int>, reverse: bool)
    requires StrictlySorted(a, reverse) && StrictlySorted(b, reverse)
    requires Elems(a) == Elems(b)
    ensures a == b
  {
    hide StrictlySorted;
    Occupied(a);
    Occupied(b);
    if a != [] && b != [] {
      LastKey(a, reverse);
      LastKey(b, reverse);
      SortedUnique(a[..|a| - 1], b[..|b| - 1], reverse);
      assert a == a[..|a| - 1] + [a[|a| - 1]] && b == b[..|b| - 1] + [b[|b| - 1]];
    }
  }

  function Prices(side: seq<AgBookPt>): (r: seq<int>)
    ensures |r| == |side|
  {
    seq(|side|, i requires 0 <= i < |side| => side[i].price)
  }

  /** There is one aggregate of the given books, whatever the order in which a map was
      gone through on the way. */
  lemma AggregateUnique(a: seq<AgBookPt>, b: seq<AgBookPt>, books: seq<seq<DepthPoint>>, reverse: bool)
    requires Aggregates(a, books, reverse) && Aggregates(b, books, reverse)
    ensures a == b
  {
    hide BookOf, Priced, Quantity;
    forall k
      ensures k in Prices(a) <==> Priced(books, |books|, k)
      ensures k in Prices(b) <==> Priced(books, |books|, k)
    {
      PricesAre(a, k);
      PricesAre(b, k);
    }
    assert Elems(Prices(a)) == Elems(Prices(b));
    SortedUnique(Prices(a), Prices(b), reverse);
    forall i | 0 <= i < |a|
      ensures a[i] == b[i]
    {
      assert Prices(a)[i] == Prices(b)[i];
      assert VolumesAt(a[i].volumes, books, a[i].price) && VolumesAt(b[i].volumes, books, b[i].price);
      assert a[i].volumes == b[i].volumes;
    }
  }

  lemma PricesAre(side: seq<AgBookPt>, k: int)
    ensures k in Prices(side) <==> HasPrice(side, k)
  {
    if HasPrice(side, k) {
      var i :| 0 <= i < |side| && side[i].price == k;
      assert Prices(side)[i] == k;
    }
  }

  // ------------------------------------------------------------------------
  // Building it
  // ------------------------------------------------------------------------

  /** The map under construction, after the first n exchanges and part of the next. */
  ghost predicate Building(book: map<int, AgBookPt>, books: seq<seq<DepthPoint>>, n: nat, part: seq<DepthPoint>)
    requires n < |books|
  {
    && (forall k :: k in book <==> Priced(books, n, k) || k in BookOf(part))
    && (forall k :: k in book ==> BuiltAt(book[k], books, n, part, k))
  }

  ghost predicate BuiltAt(pt: AgBookPt, books: seq<seq<DepthPoint>>, n: nat, part: seq<DepthPoint>, k: int)
    requires n < |books|
  {
    && pt.price == k
    && |pt.volumes| == |books|
    && forall i :: 0 <= i < |books| ==>
         pt.volumes[i] == if i < n then Quantity(books[i], k) else if i == n then Quantity(part, k) else 0
  }

  /** mapifyDepthPoints: each point goes into the exchange's slot at its price, which is
      made, with zeros, when there is none yet. */
  method MapifyDepthPoints(source: seq<DepthPoint>, target: map<int, AgBookPt>, xcIndex: nat, ptCount: nat,
                           ghost books: seq<seq<DepthPoint>>)
    returns (book: map<int, AgBookPt>)
    requires xcIndex < ptCount == |books| && books[xcIndex] == source
    requires Building(target, books, xcIndex, [])
    ensures Building(book, books, xcIndex, source)
  {
    book := target;
    assert source[..0] == [];
    for j := 0 to |source|
      invariant Building(book, books, xcIndex, source[..j])
    {
      hide Quantity, Priced;
      var pt := source[j];
      var k := pt.price;
      ghost var before := book;
      ghost var part := source[..j];
      assert source[..j + 1] == part + [pt];
      NextPoint(part, pt);
      if k !in book {
        book := book[k := AgBookPt(k, seq(ptCount, _ => 0))];
        NewPoint(books, xcIndex, part, k);
      }
      assert BuiltAt(book[k], books, xcIndex, part, k);
      book := book[k := AgBookPt(book[k].price, book[k].volumes[xcIndex := pt.quantity])];
      forall x | x in book
        ensures BuiltAt(book[x], books, xcIndex, part + [pt], x)
      {
        assert x != k ==> BuiltAt(before[x], books, xcIndex, part, x);
      }
    }
    assert source[..|source|] == source;
  }

  lemma NextPoint(part: seq<DepthPoint>, pt: DepthPoint)
    ensures BookOf(part + [pt]) == BookOf(part)[pt.price := pt.quantity]
    ensures forall k :: Quantity(part + [pt], k) == if k == pt.price then pt.quantity else Quantity(part, k)
  {
    assert (part + [pt])[..|part|] == part;
  }

  /** At a price nobody had before, all volumes so far are zero. */
  lemma NewPoint(books: seq<seq<DepthPoint>>, n: nat, part: seq<DepthPoint>, k: int)
    requires n < |books| && !Priced(books, n, k) && k !in BookOf(part)
    ensures forall i :: 0 <= i < n ==> Quantity(books[i], k) == 0
    ensures Quantity(part, k) == 0
  {
    hide BookOf;
    forall i | 0 <= i < n
      ensures Quantity(books[i], k) == 0
    {
      assert k !in BookOf(books[i]);
    }
  }

  /** The next exchange starts where this one ended. */
  lemma NextExchange(book: map<int, AgBookPt>, books: seq<seq<DepthPoint>>, n: nat)
    requires n + 1 < |books| && Building(book, books, n, books[n])
    ensures Building(book, books, n + 1, [])
  {
    hide BookOf;
    NoPoints();
    forall k
      ensures Priced(books, n + 1, k) <==> Priced(books, n, k) || k in BookOf(books[n])
    {
    }
    forall k | k in book
      ensures BuiltAt(book[k], books, n + 1, [], k)
    {
      assert BuiltAt(book[k], books, n, books[n], k);
    }
  }

  lemma NoPoints()
    ensures BookOf([]) == map[]
    ensures forall k :: Quantity([], k) == 0
  {
  }

  function Insert(keys: seq<int>, k: int, reverse: bool): seq<int> {
    if keys == [] || Before(keys[|keys| - 1], k, reverse) then keys + [k]
    else Insert(keys[..|keys| - 1], k, reverse) + [keys[|keys| - 1]]
  }

  lemma {:induction false} InsertSorts(keys: seq<int>, k: int, reverse: bool)
    requires StrictlySorted(keys, reverse) && k !in keys
    ensures StrictlySorted(Insert(keys, k, reverse), reverse)
    ensures Elems(Insert(keys, k, reverse)) == Elems(keys) + {k}
  {
    if keys != [] && !Before(keys[|keys| - 1], k, reverse) {
      var init, last := keys[..|keys| - 1], keys[|keys| - 1];
      assert keys == init + [last];
      InsertSorts(init, k, reverse);
      var front := Insert(init, k, reverse);
      forall i | 0 <= i < |front|
        ensures Before(front[i], last, reverse)
      {
        assert front[i] in Elems(front);
        assert forall j :: 0 <= j < |init| ==> keys[j] == init[j];
      }
    }
  }

  /** The next key of a map, in whatever order it is gone through. */
  method Pick(keys: set<int>) returns (k: int)
    requires keys != {}
    ensures k in keys
  {
    assert (forall x :: x !in keys) ==> keys == {};
    k :| k in keys;
  }

  /** Keys collected from a map in whatever order, then sorted. */
  method SortedKeys(keys: set<int>, reverse: bool) returns (sorted: seq<int>)
    ensures StrictlySorted(sorted, reverse) && Elems(sorted) == keys
  {
    hide Insert;
    sorted := [];
    var rest := keys;
    while rest != {}
      invariant StrictlySorted(sorted, reverse)
      invariant rest <= keys && Elems(sorted) == keys - rest
      decreases rest
    {
      var k := Pick(rest);
      InsertSorts(sorted, k, reverse);
      sorted := Insert(sorted, k, reverse);
      rest := rest - {k};
    }
  }

  /** unmapAgOrders. */
  method UnmapAgOrders(book: map<int, AgBookPt>, reverse: bool) returns (side: seq<AgBookPt>)
    requires forall k :: k in book ==> book[k].price == k
    ensures forall i, j :: 0 <= i < j < |side| ==> Before(side[i].price, side[j].price, reverse)
    ensures forall i :: 0 <= i < |side| ==> side[i].price in book && side[i] == book[side[i].price]
    ensures forall k :: k in book ==> HasPrice(side, k)
  {
    var keys := SortedKeys(book.Keys, reverse);
    side := [];
    for n := 0 to |keys|
      invariant |side| == n
      invariant forall i :: 0 <= i < n ==> keys[i] in book && side[i] == book[keys[i]]
    {
      assert keys[n] in Elems(keys);
      side := side + [book[keys[n]]];
    }
    assert forall i :: 0 <= i < |side| ==> side[i].price == keys[i];
    forall k | k in book
      ensures HasPrice(side, k)
    {
      assert k in Elems(keys);
      var i :| 0 <= i < |keys| && keys[i] == k;
      assert side[i].price == k;
    }
  }

  /** The map of one side, from all exchanges in order. */
  method MapSide(books: seq<seq<DepthPoint>>) returns (book: map<int, AgBookPt>)
    ensures forall k :: k in book <==> Priced(books, |books|, k)
    ensures forall k :: k in book ==> book[k].price == k && VolumesAt(book[k].volumes, books, k)
  {
    hide BookOf;
    book := map[];
    NoPoints();
    for i := 0 to |books|
      invariant i < |books| ==> Building(book, books, i, [])
      invariant i == |books| > 0 ==> Building(book, books, i - 1, books[i - 1])
      invariant |books| == 0 ==> book == map[]
    {
      book := MapifyDepthPoints(books[i], book, i, |books|, books);
      if i + 1 < |books| {
        NextExchange(book, books, i);
      }
    }
    if |books| > 0 {
      FullyBuilt(book, books);
    }
  }

  lemma FullyBuilt(book: map<int, AgBookPt>, books: seq<seq<DepthPoint>>)
    requires |books| > 0 && Building(book, books, |books| - 1, books[|books| - 1])
    ensures forall k :: k in book <==> Priced(books, |books|, k)
    ensures forall k :: k in book ==> book[k].price == k && VolumesAt(book[k].volumes, books, k)
  {
    hide BookOf, Quantity;
    var n := |books| - 1;
    forall k
      ensures Priced(books, |books|, k) <==> Priced(books, n, k) || k in BookOf(books[n])
    {
    }
    forall k | k in book
      ensures book[k].price == k && VolumesAt(book[k].volumes, books, k)
    {
      assert BuiltAt(book[k], books, n, books[n], k);
    }
  }

  method AggregateSide(books: seq<seq<DepthPoint>>, reverse: bool) returns (side: seq<AgBookPt>)
    ensures Aggregates(side, books, reverse)
  {
    hide BookOf, VolumesAt, Priced;
    var book := MapSide(books);
    side := UnmapAgOrders(book, reverse);
  }

  /** The order books of the given exchanges, one side of each. */
  function Sides(states: map<int, Option<DepthData>>, tokens: seq<int>, bids: bool): (books: seq<seq<DepthPoint>>)
    ensures |books| == |tokens|
  {
    seq(|tokens|, i requires 0 <= i < |tokens| =>
      if tokens[i] !in states || states[tokens[i]].None? then []
      else if bids then states[tokens[i]].value.bids
      else states[tokens[i]].value.asks)
  }

  /** The latest of some times, or the bound if none is later. */
  ghost predicate Latest(times: seq<int>, bound: int, t: int) {
    t >= bound && (forall i :: 0 <= i < |times| ==> times[i] <= t) && (t == bound || t in times)
  }

  ghost predicate Earliest(times: seq<int>, bound: int, t: int) {
    t <= bound && (forall i :: 0 <= i < |times| ==> times[i] >= t) && (t == bound || t in times)
  }

  lemma SidesAre(states: map<int, Option<DepthData>>, tokens: seq<int>)
    requires forall i :: 0 <= i < |tokens| ==> tokens[i] in states && states[tokens[i]].Some?
    ensures forall i :: 0 <= i < |tokens| ==> Sides(states, tokens, true)[i] == states[tokens[i]].value.bids
    ensures forall i :: 0 <= i < |tokens| ==> Sides(states, tokens, false)[i] == states[tokens[i]].value.asks
  {
  }

  /** aggOrderbook: the exchanges with depth data in order, highest bids first and
      lowest asks first. It is as recent as its latest book, and expires with its oldest. */
  method AggOrderbook(states: map<int, Option<DepthData>>, btcIndex: int, price: int, now: int, expiry: int)
    returns (agg: Aggregate)
    ensures StrictlySorted(agg.tokens, false)
    ensures Elems(agg.tokens) == set t | t in states && states[t].Some?
    ensures Aggregates(agg.bids, Sides(states, agg.tokens, true), true)
    ensures Aggregates(agg.asks, Sides(states, agg.tokens, false), false)
    ensures |agg.updateTimes| == |agg.tokens|
    ensures forall i :: 0 <= i < |agg.tokens| ==>
      && agg.tokens[i] in states && states[agg.tokens[i]].Some?
      && agg.updateTimes[i] == states[agg.tokens[i]].value.time
      && Sides(states, agg.tokens, true)[i] == states[agg.tokens[i]].value.bids
      && Sides(states, agg.tokens, false)[i] == states[agg.tokens[i]].value.asks
    ensures Latest(agg.updateTimes, 0, agg.time)
    ensures Earliest(agg.updateTimes, now, agg.expiration - expiry)
    ensures agg.btcIndex == btcIndex && agg.price == price
  {
    hide Aggregates, StrictlySorted, Sides;
    var tokens := SortedKeys(set t | t in states && states[t].Some?, false);
    var updateTimes: seq<int>, newest, oldest := [], 0, now;
    for i := 0 to |tokens|
      invariant |updateTimes| == i
      invariant forall k :: 0 <= k < i ==>
        tokens[k] in states && states[tokens[k]].Some? && updateTimes[k] == states[tokens[k]].value.time
      invariant Latest(updateTimes, 0, newest) && Earliest(updateTimes, now, oldest)
    {
      assert tokens[i] in Elems(tokens);
      var t := states[tokens[i]].value.time;
      oldest := if t < oldest then t else oldest;
      newest := if t > newest then t else newest;
      updateTimes := updateTimes + [t];
    }
    SidesAre(states, tokens);
    var bids := AggregateSide(Sides(states, tokens, true), true);
    var asks := AggregateSide(Sides(states, tokens, false), false);
    agg := Aggregate(tokens, btcIndex, price, updateTimes, newest, bids, asks, oldest + expiry);
  }
}
