/** The chart cache of the exchange bot (exchanges/bot.go): encoded charts are kept
    under a version number that every update of their data moves on. A reader looks
    up the version in one lock section and, on a miss, encodes and stores in another;
    updates and other readers may come in between. The aggregated order book is encoded
    from a copy of the state and stored in yet another step. */
module ChartCache {
  import opened Common

  const ORDERBOOK_KEY := "depth"
  const AGGREGATED_KEY := "aggregated"

  type Token = string
  type Bin = string

  /** genCacheID. */
  function CacheId(token: Token, part: string): string {
    token + "-" + part
  }

  /** The identifier of the aggregated order book. */
  function AggregateId(): string {
    CacheId(AGGREGATED_KEY, ORDERBOOK_KEY)
  }

  /** What an update carries: candlesticks by bin width, and an order book. */
  datatype XcState = XcState(candlesticks: Option<map<Bin, seq<int>>>, depth: Option<int>)

  /** The data that a chart encodes; an aggregate has the books of several exchanges. */
  datatype Data = Sticks(sticks: seq<int>) | Depth(depth: int) | Aggregate(depths: map<Token, int>)

  /** An encoded chart: the data, and the price at the time of encoding. */
  datatype Chart = Chart(data: Data, price: int)

  datatype Versioned = Versioned(dataID: int, chart: Chart)

  /** What a reader asks for; token and bin come from outside and may be anything. */
  datatype Request = QuickSticks(token: Token, bin: string) | QuickDepth(token: Token)
  {
    function Id(): string {
      CacheId(token, if QuickSticks? then bin else ORDERBOOK_KEY)
    }

    predicate ForAggregate() {
      this == QuickDepth(AGGREGATED_KEY)
    }
  }

  /** A reader between its steps. The aggregate is encoded before it is stored; which
      version it had then is noted here, though the code does not ask for it. */
  datatype Reader = Reader(req: Request, bestVersion: int, encoded: Option<Encoded>)

  datatype Encoded = Encoded(chart: Chart, version: int)

  /** A book that an update brought. */
  datatype Sent = Sent(token: Token, depth: int)

  /** The bot, with the readers under way. The history is, for each chart, the data of the
      last update that carried it, and all books that updates brought. */
  datatype State = State(
    versions: map<string, int>, charts: map<string, Versioned>,
    exchanges: map<Token, XcState>, price: int,
    readers: map<nat, Reader>, last: map<string, Data>, sent: seq<Sent>)

  const INITIAL := State(map[], map[], map[], 0, map[], map[], [])

  /** cachedChartVersion. */
  function Version(s: State, id: string): int {
    if id in s.versions then s.versions[id] else -1
  }

  /** The parts of a state's data. */
  function Parts(xc: XcState): map<string, Data> {
    (match xc.candlesticks
     case None => map[]
     case Some(m) => map bin | bin in m :: Sticks(m[bin]))
    + (match xc.depth case None => map[] case Some(d) => map[ORDERBOOK_KEY := Depth(d)])
  }

  /** The identifiers of the exchange's own charts that an update carries. */
  function Ids(token: Token, xc: XcState): set<string> {
    set part | part in Parts(xc) :: CacheId(token, part)
  }

  /** The charts whose version an update moves on. */
  function Touched(token: Token, xc: XcState): set<string> {
    Ids(token, xc) + (if xc.depth.Some? then {AggregateId()} else {})
  }

  /** incrementChart for each of them: from nothing to 0, else up by one. */
  function Increment(versions: map<string, int>, ids: set<string>): map<string, int> {
    map id | id in versions.Keys + ids ::
      if id !in versions then 0 else if id in ids then versions[id] + 1 else versions[id]
  }

  /** updateExchange; the price may change, and outdated exchanges are dropped. */
  function Update(s: State, token: Token, xc: XcState, price: int, dropped: set<Token>): State {
    s.(versions := Increment(s.versions, Touched(token, xc)),
       exchanges := s.exchanges[token := xc] - dropped,
       price := price,
       last := s.last + map id | id in Ids(token, xc) :: Parts(xc)[PartOf(token, id)],
       sent := s.sent + Brought(token, xc))
  }

  function Brought(token: Token, xc: XcState): seq<Sent> {
    if xc.depth.Some? then [Sent(token, xc.depth.value)] else []
  }

  /** updateIndices, for what it does to the exchanges. */
  function Drop(s: State, price: int, dropped: set<Token>): State {
    s.(exchanges := s.exchanges - dropped, price := price)
  }

  /** The part that an identifier of the token's names. */
  function PartOf(token: Token, id: string): string {
    if |id| > |token| then id[|token| + 1..] else ""
  }

  /** fetchFromCache: a chart is good when its version is the best version, where a
      chart that was never updated has version -1. */
  function Lookup(s: State, id: string): Option<Chart> {
    if id in s.charts && s.charts[id].dataID == Version(s, id) then Some(s.charts[id].chart) else None
  }

  /** The first step of a read; a hit is answered at once, whichever chart was asked for. */
  function Begin(s: State, r: nat, req: Request): (Option<Chart>, State) {
    var found := Lookup(s, req.Id());
    (found, if found.Some? then s else s.(readers := s.readers[r := Reader(req, Version(s, req.Id()), None)]))
  }

  /** The data that the second section encodes, unless there is none or it is empty. */
  function Current(s: State, req: Request): Option<Data> {
    if req.token !in s.exchanges then None
    else
      match req
      case QuickDepth(token) => (match s.exchanges[token].depth case None => None case Some(d) => Some(Depth(d)))
      case QuickSticks(token, bin) =>
        match s.exchanges[token].candlesticks
        case None => None
        case Some(m) => if bin in m && m[bin] != [] then Some(Sticks(m[bin])) else None
  }

  /** The second section: what is encoded is the data as it is now, and it is stored
      under the version that was read then. */
  function End(s: State, r: nat): (Option<Chart>, State)
    requires r in s.readers
  {
    var reader := s.readers[r];
    var done := s.(readers := s.readers - {r});
    match Current(s, reader.req)
    case None => (None, done)
    case Some(data) =>
      var chart := Chart(data, s.price);
      (Some(chart), done.(charts := s.charts[reader.req.Id() := Versioned(reader.bestVersion, chart)]))
  }

  /** The books of all exchanges that have one. */
  function Books(exchanges: map<Token, XcState>): map<Token, int> {
    map t | t in exchanges && exchanges[t].depth.Some? :: exchanges[t].depth.value
  }

  /** The aggregate is encoded from the state as it is now, ... */
  function Encode(s: State, r: nat): State
    requires r in s.readers
  {
    var chart := Chart(Aggregate(Books(s.exchanges)), s.price);
    s.(readers := s.readers[r := s.readers[r].(encoded := Some(Encoded(chart, Version(s, AggregateId()))))])
  }

  /** ... and stored later under the version read before. */
  function Put(s: State, r: nat): (Option<Chart>, State)
    requires r in s.readers && s.readers[r].encoded.Some?
  {
    var reader := s.readers[r];
    var chart := reader.encoded.value.chart;
    (Some(chart),
     s.(readers := s.readers - {r},
        charts := s.charts[reader.req.Id() := Versioned(reader.bestVersion, chart)]))
  }

  // ------------------------------------------------------------------------
  // Freshness
  // ------------------------------------------------------------------------

  ghost predicate DashFree(token: Token) {
    forall i :: 0 <= i < |token| ==> token[i] != '-'
  }

  /** With no dash in one token and one part, identifiers do not clash. */
  lemma CacheIdInjective(a: Token, p: string, b: Token, q: string)
    requires DashFree(a) && (DashFree(b) || DashFree(p)) && CacheId(a, p) == CacheId(b, q)
    ensures a == b && p == q
  {
    var id := CacheId(a, p);
    assert id[|a|] == '-' && id[|b|] == '-';
    assert forall i :: 0 <= i < |a| ==> id[i] == a[i];
    assert forall i :: 0 <= i < |b| ==> id[i] == b[i];
    assert forall i :: |a| < i < |id| ==> id[i] == p[i - |a| - 1];
    assert a == id[..|a|] && b == id[..|b|];
    assert p == id[|a| + 1..] && q == id[|b| + 1..];
  }

  lemma PartOfCacheId(token: Token, part: string)
    ensures PartOf(token, CacheId(token, part)) == part
  {
  }

  /** An update as the exchanges send it: the token without a dash and not that of the
      aggregate, and candlesticks under names without a dash and not the order book's. */
  ghost predicate Proper(token: Token, xc: XcState) {
    && DashFree(token) && token != AGGREGATED_KEY
    && (xc.candlesticks.Some? ==> ORDERBOOK_KEY !in xc.candlesticks.value)
    && forall part :: part in Parts(xc) ==> DashFree(part)
  }

  ghost predicate Inv(s: State) {
    && Versioning(s) && Counted(s)
    && (forall token :: token in s.exchanges ==> Proper(token, s.exchanges[token]))
    // What an exchange has now is what its last update of that part carried.
    && (forall token, part :: token in s.exchanges && part in Parts(s.exchanges[token]) ==>
          Carried(s, token, part))
    // A stored version is never ahead, and one that is current stands for current data.
    && (forall id :: id in s.charts ==> Stored(s, id))
    && (forall r :: r in s.readers ==> Reading(s, r))
  }

  /** The version of the aggregate counts the books that updates brought. */
  ghost predicate Counted(s: State) {
    Version(s, AggregateId()) == |s.sent| - 1
  }

  ghost predicate Versioning(s: State) {
    && (forall id :: id in s.versions ==> s.versions[id] >= 0)
    && (forall id :: id in s.last ==> id in s.versions && Named(id, s.last[id]))
  }

  /** The chart of an exchange's own part: an order book exactly under the order book's
      name, candlesticks under any other. */
  ghost predicate Named(id: string, data: Data) {
    && !data.Aggregate?
    && exists token, part :: OwnChart(token, part, id) && (data.Sticks? <==> part != ORDERBOOK_KEY)
  }

  ghost predicate OwnChart(token: Token, part: string, id: string) {
    DashFree(token) && DashFree(part) && token != AGGREGATED_KEY && id == CacheId(token, part)
  }

  ghost predicate Carried(s: State, token: Token, part: string)
    requires token in s.exchanges && part in Parts(s.exchanges[token])
  {
    var id := CacheId(token, part);
    id in s.last && s.last[id] == Parts(s.exchanges[token])[part]
  }

  ghost predicate Reading(s: State, r: nat)
    requires r in s.readers
  {
    var reader := s.readers[r];
    && -1 <= reader.bestVersion <= Version(s, reader.req.Id())
    && (reader.encoded.Some? ==> reader.req.ForAggregate() && Explained(s, reader.bestVersion, reader.encoded.value))
  }

  /** The books that updates brought after a version of the aggregate. */
  function News(s: State, version: int): seq<Sent> {
    if 0 <= version + 1 <= |s.sent| then s.sent[version + 1..] else []
  }

  /** The last of the books of an exchange, if there is one. */
  function LastSent(news: seq<Sent>, token: Token): Option<int> {
    if news == [] then None
    else
      var last := news[|news| - 1];
      if last.token == token then Some(last.depth) else LastSent(news[..|news| - 1], token)
  }

  /** An aggregate that was encoded at a version: any book there is now has been brought
      since, or is in it. */
  ghost predicate Explained(s: State, bestVersion: int, e: Encoded) {
    && e.chart.data.Aggregate?
    && -1 <= bestVersion <= e.version <= Version(s, AggregateId())
    && forall t :: t in Books(s.exchanges) ==>
         ExplainedBook(Books(s.exchanges)[t], LastSent(News(s, e.version), t), e.chart.data.depths, t)
  }

  predicate ExplainedBook(depth: int, sent: Option<int>, depths: map<Token, int>, t: Token) {
    match sent
    case None => t in depths && depths[t] == depth
    case Some(d) => d == depth
  }

  /** No exchange that has a book now has since brought one other than the chart's. */
  ghost predicate NothingNewer(s: State, e: Encoded)
    requires e.chart.data.Aggregate?
  {
    forall t :: t in Books(s.exchanges) ==> KeptBook(LastSent(News(s, e.version), t), e.chart.data.depths, t)
  }

  predicate KeptBook(sent: Option<int>, depths: map<Token, int>, t: Token) {
    sent.Some? ==> t in depths && depths[t] == sent.value
  }

  /** An aggregate encoded at or after a version: if that is still the version, all books
      there are now are in it. */
  ghost predicate Covers(s: State, version: int, chart: Chart) {
    && chart.data.Aggregate?
    && (version == Version(s, AggregateId()) ==> Within(Books(s.exchanges), chart.data.depths))
  }

  predicate Within(few: map<Token, int>, many: map<Token, int>) {
    forall t :: t in few ==> t in many && many[t] == few[t]
  }

  ghost predicate Stored(s: State, id: string)
    requires id in s.charts
  {
    s.charts[id].dataID <= Version(s, id)
    && if id == AggregateId() then Covers(s, s.charts[id].dataID, s.charts[id].chart)
       else
         && id in s.last && id in s.versions
         && (s.charts[id].dataID == s.versions[id] ==> s.charts[id].chart.data == s.last[id])
  }

  lemma CurrentIsPart(s: State, req: Request)
    requires Inv(s) && Current(s, req).Some?
    ensures req.Id() in s.last && s.last[req.Id()] == Current(s, req).value && req.Id() != AggregateId()
  {
    var part := if req.QuickSticks? then req.bin else ORDERBOOK_KEY;
    assert part in Parts(s.exchanges[req.token]);
    NotAggregate(req.token, part);
  }

  lemma NotAggregate(token: Token, part: string)
    requires DashFree(token) && token != AGGREGATED_KEY
    ensures CacheId(token, part) != AggregateId()
  {
    hide CacheId, DashFree;
    AggregatedDashFree();
    if CacheId(token, part) == AggregateId() {
      CacheIdInjective(token, part, AGGREGATED_KEY, ORDERBOOK_KEY);
    }
  }

  lemma AggregatedDashFree()
    ensures DashFree(AGGREGATED_KEY) && DashFree(ORDERBOOK_KEY)
  {
  }

  /** What an update does to one chart: it moves on if the update carries it and keeps
      its data if not, and its version does not go back. */
  lemma UpdateMoves(s: State, token: Token, xc: XcState, price: int, dropped: set<Token>, id: string)
    ensures
      var after := Update(s, token, xc, price, dropped);
      && (id in s.versions ==> id in after.versions && after.versions[id] >= s.versions[id])
      && (id in after.versions <==> id in s.versions || id in Touched(token, xc))
      && (id in Touched(token, xc) && id in s.versions ==> after.versions[id] == s.versions[id] + 1)
      && (id in Touched(token, xc) && id !in s.versions ==> after.versions[id] == 0)
      && (id !in Touched(token, xc) ==> Version(after, id) == Version(s, id))
      && (id in Ids(token, xc) ==> id in Touched(token, xc) && id in after.last)
      && (id !in Ids(token, xc) ==>
            (id in after.last <==> id in s.last) && (id in s.last ==> after.last[id] == s.last[id]))
  {
    hide Parts, CacheId, PartOf, Ids;
  }

  lemma UpdateVersioning(s: State, token: Token, xc: XcState, price: int, dropped: set<Token>)
    requires Versioning(s) && Proper(token, xc)
    ensures Versioning(Update(s, token, xc, price, dropped))
  {
    hide Parts, CacheId, PartOf, Ids, DashFree, Named, Increment, Touched, Update, Proper;
    var after := Update(s, token, xc, price, dropped);
    forall id | id in after.versions
      ensures after.versions[id] >= 0
    {
      UpdateMoves(s, token, xc, price, dropped, id);
    }
    forall id | id in after.last
      ensures id in after.versions && Named(id, after.last[id])
    {
      UpdateMoves(s, token, xc, price, dropped, id);
      if id in Ids(token, xc) {
        var part := IdPart(token, xc, id);
        UpdateCarries(s, token, xc, price, dropped, part);
        PartNamed(token, xc, part);
      }
    }
  }

  lemma IdPart(token: Token, xc: XcState, id: string) returns (part: string)
    requires id in Ids(token, xc)
    ensures part in Parts(xc) && id == CacheId(token, part)
  {
    part :| part in Parts(xc) && id == CacheId(token, part);
  }

  lemma PartNamed(token: Token, xc: XcState, part: string)
    requires Proper(token, xc) && part in Parts(xc)
    ensures Named(CacheId(token, part), Parts(xc)[part])
  {
    hide DashFree;
    assert OwnChart(token, part, CacheId(token, part));
  }

  lemma UpdateCarries(s: State, token: Token, xc: XcState, price: int, dropped: set<Token>, part: string)
    requires part in Parts(xc)
    ensures
      var last := Update(s, token, xc, price, dropped).last;
      CacheId(token, part) in last && last[CacheId(token, part)] == Parts(xc)[part]
  {
    hide Parts, Increment;
    PartOfCacheId(token, part);
    assert CacheId(token, part) in Ids(token, xc);
  }

  /** Another exchange's identifiers are none of these. */
  lemma OthersUntouched(token: Token, xc: XcState, other: Token, part: string)
    requires DashFree(token) && DashFree(other) && other != token
    ensures CacheId(other, part) !in Ids(token, xc)
  {
    hide Parts, CacheId;
    forall p | p in Parts(xc) && CacheId(token, p) == CacheId(other, part)
      ensures false
    {
      CacheIdInjective(token, p, other, part);
    }
  }

  /** Unless the version of the aggregate moves on, an update takes books away at most. */
  lemma BooksShrink(s: State, token: Token, xc: XcState, price: int, dropped: set<Token>, version: int, chart: Chart)
    requires version <= Version(s, AggregateId()) && Covers(s, version, chart) && Versioning(s)
    ensures Covers(Update(s, token, xc, price, dropped), version, chart)
  {
    hide Parts, Increment, CacheId, PartOf, Ids, Named;
    UpdateMoves(s, token, xc, price, dropped, AggregateId());
  }

  lemma UpdateKeepsStored(s: State, token: Token, xc: XcState, price: int, dropped: set<Token>, id: string)
    requires Versioning(s) && id in s.charts && Stored(s, id)
    ensures Stored(Update(s, token, xc, price, dropped), id)
  {
    hide Parts, Increment, CacheId, PartOf, Ids, Versioning, Covers, AggregateId, Touched, Update;
    VersionMoves(s, token, xc, price, dropped, id);
    UpdateMoves(s, token, xc, price, dropped, id);
    SameCharts(s, token, xc, price, dropped);
    if id == AggregateId() {
      BooksShrink(s, token, xc, price, dropped, s.charts[id].dataID, s.charts[id].chart);
    }
  }

  lemma LastSentOne(news: seq<Sent>, e: Sent, t: Token)
    ensures LastSent(news + [e], t) == if e.token == t then Some(e.depth) else LastSent(news, t)
  {
    assert (news + [e])[..|news|] == news;
  }

  /** The books and the news after an update. */
  lemma UpdateNews(s: State, token: Token, xc: XcState, price: int, dropped: set<Token>, version: int)
    requires Counted(s) && Proper(token, xc) && -1 <= version <= Version(s, AggregateId())
    ensures
      var after := Update(s, token, xc, price, dropped);
      && News(after, version) == News(s, version) + Brought(token, xc)
      && (forall t :: t in Books(after.exchanges) && t != token ==>
            t in Books(s.exchanges) && Books(after.exchanges)[t] == Books(s.exchanges)[t])
      && (token in Books(after.exchanges) ==> Some(Books(after.exchanges)[token]) == xc.depth)
  {
    hide Parts, PartOf, Ids, CacheId, Increment, Touched, Proper;
  }

  lemma UpdateCounts(s: State, token: Token, xc: XcState, price: int, dropped: set<Token>)
    requires Counted(s) && Versioning(s) && Proper(token, xc)
    ensures Counted(Update(s, token, xc, price, dropped))
    ensures Version(Update(s, token, xc, price, dropped), AggregateId()) >= Version(s, AggregateId())
  {
    hide Parts, PartOf, CacheId, Increment, Ids, DashFree, Named, AggregateId;
    UpdateMoves(s, token, xc, price, dropped, AggregateId());
    forall part
      ensures CacheId(token, part) != AggregateId()
    {
      NotAggregate(token, part);
    }
    AggregateTouched(token, xc);
  }

  lemma AggregateTouched(token: Token, xc: XcState)
    requires forall part :: CacheId(token, part) != AggregateId()
    ensures AggregateId() in Touched(token, xc) <==> xc.depth.Some?
  {
    hide CacheId, AggregateId, Parts;
  }

  lemma UpdateKeepsExplained(s: State, token: Token, xc: XcState, price: int, dropped: set<Token>,
                             bestVersion: int, e: Encoded)
    requires Counted(s) && Versioning(s) && Proper(token, xc) && Explained(s, bestVersion, e)
    ensures Explained(Update(s, token, xc, price, dropped), bestVersion, e)
  {
    hide Update, Books, LastSent, News, Counted, Proper, Versioning, Touched, Ids;
    var after := Update(s, token, xc, price, dropped);
    UpdateNews(s, token, xc, price, dropped, e.version);
    UpdateCounts(s, token, xc, price, dropped);
    var news := News(s, e.version);
    forall t | t in Books(after.exchanges)
      ensures ExplainedBook(Books(after.exchanges)[t], LastSent(News(after, e.version), t), e.chart.data.depths, t)
    {
      if xc.depth.Some? {
        LastSentOne(news, Sent(token, xc.depth.value), t);
      } else {
        assert news + [] == news;
      }
    }
  }

  lemma UpdateKeepsReading(s: State, token: Token, xc: XcState, price: int, dropped: set<Token>, r: nat)
    requires Versioning(s) && Counted(s) && Proper(token, xc) && r in s.readers && Reading(s, r)
    ensures r in Update(s, token, xc, price, dropped).readers && Reading(Update(s, token, xc, price, dropped), r)
  {
    hide Parts, Increment, CacheId, PartOf, Ids, Versioning, Counted, Explained, AggregateId, Touched, Update, Proper;
    var reader := s.readers[r];
    SameCharts(s, token, xc, price, dropped);
    VersionMoves(s, token, xc, price, dropped, reader.req.Id());
    if reader.encoded.Some? {
      UpdateKeepsExplained(s, token, xc, price, dropped, reader.bestVersion, reader.encoded.value);
    }
  }

  lemma SameCharts(s: State, token: Token, xc: XcState, price: int, dropped: set<Token>)
    ensures Update(s, token, xc, price, dropped).charts == s.charts
    ensures Update(s, token, xc, price, dropped).readers == s.readers
    ensures Update(s, token, xc, price, dropped).exchanges == s.exchanges[token := xc] - dropped
  {
    hide Parts, Increment, Touched, Ids;
  }

  lemma UpdateKeepsCarried(s: State, token: Token, xc: XcState, price: int, dropped: set<Token>, t: Token, part: string)
    requires DashFree(token) && (t != token ==> t in s.exchanges && DashFree(t))
    requires part in Parts(if t == token then xc else s.exchanges[t])
    requires t != token ==> Carried(s, t, part)
    ensures
      var last := Update(s, token, xc, price, dropped).last;
      CacheId(t, part) in last
      && last[CacheId(t, part)] == Parts(if t == token then xc else s.exchanges[t])[part]
  {
    hide Parts, Increment, CacheId, PartOf, Ids, DashFree, Touched, Update;
    if t == token {
      UpdateCarries(s, token, xc, price, dropped, part);
    } else {
      OthersUntouched(token, xc, t, part);
      UpdateMoves(s, token, xc, price, dropped, CacheId(t, part));
    }
  }

  lemma UpdateKeepsInv(s: State, token: Token, xc: XcState, price: int, dropped: set<Token>)
    requires Inv(s) && Proper(token, xc)
    ensures Inv(Update(s, token, xc, price, dropped))
  {
    hide Parts, Increment, CacheId, PartOf, Ids, DashFree, Versioning, Stored, Reading, Touched, Update, Counted;
    var after := Update(s, token, xc, price, dropped);
    UpdateVersioning(s, token, xc, price, dropped);
    UpdateCounts(s, token, xc, price, dropped);
    SameCharts(s, token, xc, price, dropped);
    forall t, part | t in after.exchanges && part in Parts(after.exchanges[t])
      ensures Carried(after, t, part)
    {
      assert t != token ==> Carried(s, t, part);
      UpdateKeepsCarried(s, token, xc, price, dropped, t, part);
    }
    forall id | id in after.charts
      ensures Stored(after, id)
    {
      UpdateKeepsStored(s, token, xc, price, dropped, id);
    }
    forall r | r in after.readers
      ensures Reading(after, r)
    {
      UpdateKeepsReading(s, token, xc, price, dropped, r);
    }
  }

  lemma AggregateRequest(req: Request)
    ensures req.ForAggregate() ==> req.Id() == AggregateId()
  {
  }

  lemma VersionMoves(s: State, token: Token, xc: XcState, price: int, dropped: set<Token>, id: string)
    requires Versioning(s)
    ensures
      var after := Update(s, token, xc, price, dropped);
      && Version(after, id) >= Version(s, id)
      && (id in Ids(token, xc) ==> Version(after, id) > Version(s, id))
  {
    hide Parts, CacheId, PartOf, Ids, Named, Increment, Touched;
    UpdateMoves(s, token, xc, price, dropped, id);
  }

  lemma DropKeepsInv(s: State, price: int, dropped: set<Token>)
    requires Inv(s)
    ensures Inv(Drop(s, price, dropped))
  {
    hide Parts, CacheId, DashFree, Versioning, AggregateId, Named;
    var after := Drop(s, price, dropped);
    assert Versioning(after) by { DropVersioning(s, price, dropped); }
    assert Within(Books(after.exchanges), Books(s.exchanges));
    forall t, part | t in after.exchanges && part in Parts(after.exchanges[t])
      ensures Carried(after, t, part)
    {
      assert Carried(s, t, part);
    }
    forall id | id in after.charts
      ensures Stored(after, id)
    {
      assert Stored(s, id);
    }
    forall r | r in after.readers
      ensures Reading(after, r)
    {
      assert Reading(s, r);
    }
  }

  lemma DropVersioning(s: State, price: int, dropped: set<Token>)
    requires Versioning(s)
    ensures Versioning(Drop(s, price, dropped))
  {
  }

  lemma EndKeepsInv(s: State, r: nat)
    requires Inv(s) && r in s.readers
    ensures Inv(End(s, r).1)
  {
    hide Parts, DashFree, AggregateId, Named, CacheId, Books;
    var reader := s.readers[r];
    var after := End(s, r).1;
    if Current(s, reader.req).Some? {
      CurrentIsPart(s, reader.req);
    }
    SameData(s, after);
    assert Reading(s, r);
    forall id | id in after.charts
      ensures Stored(after, id)
    {
      if id in s.charts {
        assert Stored(s, id);
      }
    }
  }

  /** A step of a reader leaves versions, data and history alone. */
  lemma SameData(s: State, after: State)
    requires Inv(s) && after.versions == s.versions && after.exchanges == s.exchanges
    requires after.last == s.last && after.sent == s.sent
    ensures Versioning(after) && Counted(after)
    ensures forall token :: token in after.exchanges ==> Proper(token, after.exchanges[token])
    ensures forall token, part :: token in after.exchanges && part in Parts(after.exchanges[token]) ==>
      Carried(after, token, part)
    ensures forall r :: r in s.readers && r in after.readers && s.readers[r] == after.readers[r] ==> Reading(after, r)
    ensures forall id :: id in s.charts && id in after.charts && s.charts[id] == after.charts[id] ==> Stored(after, id)
  {
    hide Parts, DashFree, AggregateId, Named, CacheId, Books;
    forall token, part | token in after.exchanges && part in Parts(after.exchanges[token])
      ensures Carried(after, token, part)
    {
      assert Carried(s, token, part);
    }
    forall r | r in s.readers && r in after.readers && s.readers[r] == after.readers[r]
      ensures Reading(after, r)
    {
      assert Reading(s, r);
    }
    forall id | id in s.charts && id in after.charts && s.charts[id] == after.charts[id]
      ensures Stored(after, id)
    {
      assert Stored(s, id);
    }
  }

  lemma EncodeKeepsInv(s: State, r: nat)
    requires Inv(s) && r in s.readers && s.readers[r].req.ForAggregate()
    ensures Inv(Encode(s, r))
  {
    hide Parts, DashFree, Named, CacheId, AggregateId, News, LastSent, Version;
    var after := Encode(s, r);
    SameData(s, after);
    assert Reading(s, r);
    AggregateRequest(s.readers[r].req);
    forall t
      ensures LastSent(News(after, Version(s, AggregateId())), t) == None
    {
      NoNews(after, Version(s, AggregateId()), t);
    }
    assert Reading(after, r);
  }

  lemma NoNews(s: State, version: int, t: Token)
    requires Counted(s) && version == Version(s, AggregateId())
    ensures LastSent(News(s, version), t) == None
  {
    hide AggregateId, Version;
    assert News(s, version) == [];
  }

  /** With no news, all books of now are in the chart. */
  lemma NoNewsCovers(s: State, bestVersion: int, e: Encoded)
    requires Counted(s) && Explained(s, bestVersion, e)
    ensures Covers(s, bestVersion, e.chart)
  {
    hide AggregateId, Version, Books, News, LastSent, Counted, CacheId;
    if bestVersion == Version(s, AggregateId()) {
      forall t | t in Books(s.exchanges)
        ensures t in e.chart.data.depths && e.chart.data.depths[t] == Books(s.exchanges)[t]
      {
        NoNews(s, e.version, t);
        assert ExplainedBook(Books(s.exchanges)[t], LastSent(News(s, e.version), t), e.chart.data.depths, t);
      }
    }
  }

  lemma PutKeepsInv(s: State, r: nat)
    requires Inv(s) && r in s.readers && s.readers[r].encoded.Some?
    ensures Inv(Put(s, r).1)
  {
    hide Parts, DashFree, Named, Books, AggregateId, LastSent, News;
    var after := Put(s, r).1;
    SameData(s, after);
    assert Reading(s, r);
    AggregateRequest(s.readers[r].req);
    NoNewsCovers(s, s.readers[r].bestVersion, s.readers[r].encoded.value);
    assert Stored(after, AggregateId());
  }

  /** An aggregate that is handed out after it was encoded has all books of now exactly if
      no exchange that has a book now has since brought one other than the chart's; so it
      does if its version is still the same. */
  lemma AggregateMissExactly(s: State, r: nat)
    requires Inv(s) && r in s.readers && s.readers[r].encoded.Some?
    ensures
      var e := s.readers[r].encoded.value;
      && e.chart.data.Aggregate?
      && (Within(Books(s.exchanges), e.chart.data.depths) <==> NothingNewer(s, e))
      && (e.version == Version(s, AggregateId()) ==> NothingNewer(s, e))
  {
    hide Parts, DashFree, Named, AggregateId, Books, Versioning, News, LastSent, Counted, Version, CacheId;
    assert Reading(s, r);
    var e := s.readers[r].encoded.value;
    var books := Books(s.exchanges);
    forall t | t in books
      ensures KeptBook(LastSent(News(s, e.version), t), e.chart.data.depths, t)
         <==> t in e.chart.data.depths && e.chart.data.depths[t] == books[t]
      ensures e.version == Version(s, AggregateId()) ==> LastSent(News(s, e.version), t) == None
    {
      assert ExplainedBook(books[t], LastSent(News(s, e.version), t), e.chart.data.depths, t);
      if e.version == Version(s, AggregateId()) {
        NoNews(s, e.version, t);
      }
    }
  }

  lemma BeginKeepsInv(s: State, r: nat, req: Request)
    requires Inv(s)
    ensures Inv(Begin(s, r, req).1)
  {
    hide Parts, DashFree, Named, CacheId, Books, AggregateId;
    var after := Begin(s, r, req).1;
    SameData(s, after);
  }

  /** A hit is fresh: it encodes the data of the last update that carried it. What
      QuickSticks hands out is candlesticks exactly when the bin is not the order book's
      name; the bin is not looked at before. */
  lemma HitIsFresh(s: State, req: Request)
    requires Inv(s)
    ensures Lookup(s, req.Id()).Some? && req.Id() != AggregateId() ==>
      req.Id() in s.last && Lookup(s, req.Id()).value.data == s.last[req.Id()]
    ensures Lookup(s, req.Id()).Some? && req.QuickSticks? ==>
      (Lookup(s, req.Id()).value.data.Sticks? <==> req.bin != ORDERBOOK_KEY)
    ensures Lookup(s, req.Id()).Some? && req.QuickDepth? ==> !Lookup(s, req.Id()).value.data.Sticks?
  {
    hide Parts, DashFree, CacheId, Books;
    var id := req.Id();
    if Lookup(s, id).Some? {
      var part := if req.QuickSticks? then req.bin else ORDERBOOK_KEY;
      assert Stored(s, id);
      AggregatedDashFree();
      if id == AggregateId() {
        CacheIdInjective(AGGREGATED_KEY, ORDERBOOK_KEY, req.token, part);
      } else {
        assert Named(id, s.last[id]);
        var t, p :| OwnChart(t, p, id) && (s.last[id].Sticks? <==> p != ORDERBOOK_KEY);
        CacheIdInjective(t, p, req.token, part);
      }
    }
  }

  /** A hit on the aggregate has all books there are now, as they are now. It is the
      aggregate of now exactly when every exchange in it still has a book: the version
      does not move when an exchange is dropped or sends an update without one. */
  lemma AggregateHitExactly(s: State)
    requires Inv(s) && Lookup(s, AggregateId()).Some?
    ensures
      var data := Lookup(s, AggregateId()).value.data;
      && data.Aggregate?
      && Within(Books(s.exchanges), data.depths)
      && (data.depths == Books(s.exchanges) <==>
          forall t :: t in data.depths ==> t in s.exchanges && s.exchanges[t].depth.Some?)
  {
    assert Stored(s, AggregateId());
    var depths, books := Lookup(s, AggregateId()).value.data.depths, Books(s.exchanges);
    if forall t :: t in depths ==> t in s.exchanges && s.exchanges[t].depth.Some? {
      assert depths.Keys == books.Keys;
      assert forall t :: t in depths ==> t in books && depths[t] == books[t];
      assert depths == books;
    } else {
      var t :| t in depths && !(t in s.exchanges && s.exchanges[t].depth.Some?);
      assert t !in books;
    }
  }

  datatype Action =
    | DoUpdate(token: Token, xc: XcState, price: int, dropped: set<Token>)
    | DoDrop(price: int, dropped: set<Token>)
    | DoBegin(r: nat, req: Request)
    | DoEnd(r: nat)
    | DoEncode(r: nat)
    | DoPut(r: nat)

  ghost predicate Enabled(s: State, a: Action) {
    match a
    case DoUpdate(token, xc, _, _) => Proper(token, xc)
    case DoDrop(_, _) => true
    case DoBegin(r, _) => r !in s.readers
    case DoEnd(r) => r in s.readers && !s.readers[r].req.ForAggregate()
    case DoEncode(r) => r in s.readers && s.readers[r].req.ForAggregate() && s.readers[r].encoded.None?
    case DoPut(r) => r in s.readers && s.readers[r].encoded.Some?
  }

  ghost function Step(s: State, a: Action): State
    requires Enabled(s, a)
  {
    match a
    case DoUpdate(token, xc, price, dropped) => Update(s, token, xc, price, dropped)
    case DoDrop(price, dropped) => Drop(s, price, dropped)
    case DoBegin(r, req) => Begin(s, r, req).1
    case DoEnd(r) => End(s, r).1
    case DoEncode(r) => Encode(s, r)
    case DoPut(r) => Put(s, r).1
  }

  /** A step's answer to a reader is that of the data last carried: for a hit, and for
      a chart that is encoded afresh. Candlesticks are handed out exactly when the bin is
      not the order book's name. A hit on the aggregate has all books of now; one that is
      handed out on a miss, a step after it was encoded, exactly if nothing newer came. */
  ghost predicate AnswersFresh(s: State, a: Action)
    requires Enabled(s, a)
  {
    match a
    case DoBegin(r, req) =>
      var found := Begin(s, r, req).0;
      found.Some? ==>
        && (if req.Id() == AggregateId()
            then found.value.data.Aggregate? && Within(Books(s.exchanges), found.value.data.depths)
            else req.Id() in s.last && found.value.data == s.last[req.Id()])
        && (found.value.data.Sticks? <==> req.QuickSticks? && req.bin != ORDERBOOK_KEY)
    case DoEnd(r) =>
      var made, req := End(s, r).0, s.readers[r].req;
      made.Some? ==>
        && req.Id() in s.last && made.value.data == s.last[req.Id()]
        && (made.value.data.Sticks? <==> req.QuickSticks?)
    case DoPut(r) =>
      var e, made := s.readers[r].encoded.value, Put(s, r).0;
      && made == Some(e.chart) && e.chart.data.Aggregate?
      && (Within(Books(s.exchanges), e.chart.data.depths) <==> NothingNewer(s, e))
    case _ => true
  }

  ghost predicate IsRun(s: State, actions: seq<Action>)
    decreases |actions|
  {
    actions == [] || (Enabled(s, actions[0]) && IsRun(Step(s, actions[0]), actions[1..]))
  }

  ghost predicate AllFresh(s: State, actions: seq<Action>)
    requires IsRun(s, actions)
    decreases |actions|
  {
    actions == [] || (AnswersFresh(s, actions[0]) && AllFresh(Step(s, actions[0]), actions[1..]))
  }

  lemma StepKeepsInv(s: State, a: Action)
    requires Inv(s) && Enabled(s, a)
    ensures Inv(Step(s, a)) && AnswersFresh(s, a)
  {
    hide Parts, Touched, PartOf, Stored, CacheId, Books;
    match a
    case DoUpdate(token, xc, price, dropped) => UpdateKeepsInv(s, token, xc, price, dropped);
    case DoDrop(price, dropped) => DropKeepsInv(s, price, dropped);
    case DoBegin(r, req) =>
      HitIsFresh(s, req);
      BeginKeepsInv(s, r, req);
      if Lookup(s, AggregateId()).Some? {
        AggregateHitExactly(s);
      }
    case DoEnd(r) =>
      EndKeepsInv(s, r);
      if Current(s, s.readers[r].req).Some? {
        CurrentIsPart(s, s.readers[r].req);
      }
    case DoEncode(r) => EncodeKeepsInv(s, r);
    case DoPut(r) =>
      PutKeepsInv(s, r);
      AggregateMissExactly(s, r);
  }

  /** Across any interleaving of updates with the steps of any number of readers, every
      chart of one exchange that is handed out encodes the data of the last update that
      carried it, and an aggregate has the books that AnswersFresh says. */
  lemma {:induction false} EveryAnswerIsFresh(s: State, actions: seq<Action>)
    requires Inv(s) && IsRun(s, actions)
    ensures AllFresh(s, actions)
    decreases |actions|
  {
    hide Inv, Step, AnswersFresh;
    if actions != [] {
      StepKeepsInv(s, actions[0]);
      EveryAnswerIsFresh(Step(s, actions[0]), actions[1..]);
    }
  }

  lemma RunsFromStartAreFresh(actions: seq<Action>)
    requires IsRun(INITIAL, actions)
    ensures AllFresh(INITIAL, actions)
  {
    EveryAnswerIsFresh(INITIAL, actions);
  }

  ghost function Run(s: State, actions: seq<Action>): State
    requires IsRun(s, actions)
    decreases |actions|
  {
    if actions == [] then s else Run(Step(s, actions[0]), actions[1..])
  }

  lemma {:induction false} VersionsRise(s: State, actions: seq<Action>, id: string)
    requires Inv(s) && IsRun(s, actions)
    ensures Version(Run(s, actions), id) >= Version(s, id) && Inv(Run(s, actions))
    decreases |actions|
  {
    hide Inv, Version;
    if actions != [] {
      StepKeepsInv(s, actions[0]);
      VersionRises(s, actions[0], id);
      VersionsRise(Step(s, actions[0]), actions[1..], id);
    }
  }

  lemma VersionRises(s: State, a: Action, id: string)
    requires Inv(s) && Enabled(s, a)
    ensures Version(Step(s, a), id) >= Version(s, id)
  {
    hide Parts, Touched, CacheId, Books, Proper, Counted;
    if a.DoUpdate? {
      VersionMoves(s, a.token, a.xc, a.price, a.dropped, id);
    }
  }

  /** A chart that was encoded across an update is stored under a version that has
      passed, and is not handed out in any later state of a run while it is stored. */
  lemma EncodedAcrossUpdateIsStale(s: State, r: nat, actions: seq<Action>)
    requires Inv(s) && r in s.readers && End(s, r).0.Some?
    requires s.readers[r].bestVersion < Version(s, s.readers[r].req.Id())
    requires IsRun(End(s, r).1, actions)
    ensures
      var id := s.readers[r].req.Id();
      var stored, later := End(s, r).1, Run(End(s, r).1, actions);
      id in stored.charts
      && (id in later.charts && later.charts[id] == stored.charts[id] ==> Lookup(later, id) == None)
  {
    hide Inv;
    EndKeepsInv(s, r);
    VersionsRise(End(s, r).1, actions, s.readers[r].req.Id());
  }

  /** Until its reader stores it, an encoded aggregate stays what it was. */
  lemma {:induction false} EncodedStays(s: State, r: nat, actions: seq<Action>)
    requires IsRun(s, actions) && DoPut(r) !in actions
    requires r in s.readers && s.readers[r].req.ForAggregate() && s.readers[r].encoded.Some?
    ensures r in Run(s, actions).readers && Run(s, actions).readers[r] == s.readers[r]
    decreases |actions|
  {
    hide Current, Increment, Parts, Touched, Books, Lookup;
    if actions != [] {
      assert actions[0] != DoPut(r);
      EncodedStays(Step(s, actions[0]), r, actions[1..]);
    }
  }

  /** Whatever happens in between, an aggregate that is handed out on a miss is that of the
      state in which it was encoded. */
  lemma AggregateIsOfEncoding(s: State, r: nat, actions: seq<Action>)
    requires Enabled(s, DoEncode(r)) && IsRun(Encode(s, r), actions) && DoPut(r) !in actions
    ensures
      var later := Run(Encode(s, r), actions);
      && r in later.readers && later.readers[r].encoded.Some?
      && Put(later, r).0 == Some(Chart(Aggregate(Books(s.exchanges)), s.price))
  {
    hide Books, Run;
    EncodedStays(Encode(s, r), r, actions);
  }

  /** An aggregate that is handed out without the book that an update brought after it was
      encoded. */
  lemma AggregateMissesNewBook(token: Token, other: Token, depth: int, price: int)
    requires DashFree(token) && token != AGGREGATED_KEY && DashFree(other) && other != AGGREGATED_KEY && token != other
    ensures
      var xc := XcState(None, Some(depth));
      var s1 := Update(INITIAL, token, xc, price, {});
      var s2 := Begin(s1, 0, QuickDepth(AGGREGATED_KEY)).1;
      && Proper(token, xc) && Proper(other, xc)
      && 0 in s2.readers
      && var s3 := Update(Encode(s2, 0), other, xc, price, {});
         && 0 in s3.readers && s3.readers[0].encoded.Some?
         && Put(s3, 0).0 == Some(Chart(Aggregate(map[token := depth]), price))
         && Books(s3.exchanges) == map[token := depth, other := depth]
         && !NothingNewer(s3, s3.readers[0].encoded.value)
  {
    hide Update, AggregateId, Proper, Books, News;
    var xc := XcState(None, Some(depth));
    BookArrives(INITIAL, token, depth, price);
    var s1 := Update(INITIAL, token, xc, price, {});
    var s2 := Begin(s1, 0, QuickDepth(AGGREGATED_KEY)).1;
    var enc := Encode(s2, 0);
    BookArrives(enc, other, depth, price);
    var s3 := Update(enc, other, xc, price, {});
    OneBookNews(s3, token, other, depth);
    assert !KeptBook(Some(depth), map[token := depth], other);
  }

  /** An update with nothing but a book. */
  lemma BookArrives(s: State, token: Token, depth: int, price: int)
    requires DashFree(token) && token != AGGREGATED_KEY && Versioning(s) && Counted(s)
    ensures
      var xc := XcState(None, Some(depth));
      var after := Update(s, token, xc, price, {});
      && Proper(token, xc) && Versioning(after) && Counted(after)
      && after.exchanges == s.exchanges[token := xc] && after.sent == s.sent + [Sent(token, depth)]
      && after.price == price && after.readers == s.readers && after.charts == s.charts
  {
    hide CacheId, Increment, Ids, Versioning, Counted, PartOf, Touched;
    var xc := XcState(None, Some(depth));
    AggregatedDashFree();
    assert Parts(xc) == map[ORDERBOOK_KEY := Depth(depth)];
    UpdateVersioning(s, token, xc, price, {});
    UpdateCounts(s, token, xc, price, {});
  }

  lemma OneBookNews(s: State, token: Token, other: Token, depth: int)
    requires token != other && s.sent == [Sent(token, depth), Sent(other, depth)]
    requires s.exchanges == map[token := XcState(None, Some(depth)), other := XcState(None, Some(depth))]
    ensures News(s, 0) == [Sent(other, depth)] && LastSent(News(s, 0), other) == Some(depth)
    ensures Books(s.exchanges) == map[token := depth, other := depth]
    ensures Books(map[token := XcState(None, Some(depth))]) == map[token := depth]
  {
    assert News(s, 0) == [Sent(other, depth)];
  }

  /** A request for candlesticks that is answered with an order book. */
  lemma SticksRequestGetsDepth(token: Token, depth: int, price: int)
    requires DashFree(token) && token != AGGREGATED_KEY
    ensures
      var s1 := Update(INITIAL, token, XcState(None, Some(depth)), price, {});
      var s2 := Begin(s1, 0, QuickDepth(token)).1;
      && Proper(token, XcState(None, Some(depth)))
      && 0 in s2.readers
      && var s3 := End(s2, 0).1;
         Begin(s3, 1, QuickSticks(token, ORDERBOOK_KEY)).0 == Some(Chart(Depth(depth), price))
  {
    hide CacheId;
    AggregatedDashFree();
    var id := CacheId(token, ORDERBOOK_KEY);
    var xc := XcState(None, Some(depth));
    assert Parts(xc) == map[ORDERBOOK_KEY := Depth(depth)];
    assert id in Ids(token, xc);
    UpdateMoves(INITIAL, token, xc, price, {}, id);
  }

  /** A hit on the aggregate that still has an exchange dropped since. */
  lemma DroppedExchangeStaysInAggregate(token: Token, depth: int, price: int)
    requires DashFree(token) && token != AGGREGATED_KEY
    ensures
      var s1 := Update(INITIAL, token, XcState(None, Some(depth)), price, {});
      var s2 := Begin(s1, 0, QuickDepth(AGGREGATED_KEY)).1;
      && Proper(token, XcState(None, Some(depth)))
      && 0 in s2.readers
      && var s3 := Drop(Put(Encode(s2, 0), 0).1, price, {token});
         && s3.exchanges == map[]
         && Begin(s3, 1, QuickDepth(AGGREGATED_KEY)).0 == Some(Chart(Aggregate(map[token := depth]), price))
  {
    hide Update, AggregateId, Proper, Books;
    BookArrives(INITIAL, token, depth, price);
    OneBook(token, depth);
  }

  lemma OneBook(token: Token, depth: int)
    ensures Books(map[token := XcState(None, Some(depth))]) == map[token := depth]
    ensures map[token := XcState(None, Some(depth))] - {token} == map[]
  {
  }

  // ------------------------------------------------------------------------
  // The bot object
  // ------------------------------------------------------------------------

  lemma IncrementTwice(versions: map<string, int>, a: set<string>, id: string)
    requires id !in a
    ensures Increment(Increment(versions, a), {id}) == Increment(versions, a + {id})
  {
  }

  lemma IncrementNone(versions: map<string, int>)
    ensures Increment(versions, {}) == versions
  {
  }

  lemma IncrementMeans(versions: map<string, int>, ids: set<string>)
    ensures forall id ::
      var after := Increment(versions, ids);
      && (id in after <==> id in versions || id in ids)
      && (id in versions ==> after[id] == versions[id] + if id in ids then 1 else 0)
      && (id !in versions && id in ids ==> after[id] == 0)
  {
  }

  /** The charts that an update makes out of date: one for each bin of candlesticks that
      it carries, and with an order book that of the exchange and the aggregate. */
  ghost predicate MovesOn(token: Token, xc: XcState, id: string) {
    || (xc.candlesticks.Some? && exists bin :: bin in xc.candlesticks.value && id == token + "-" + bin)
    || (xc.depth.Some? && (id == token + "-depth" || id == "aggregated-depth"))
  }

  lemma TouchedMoves(token: Token, xc: XcState)
    ensures forall id :: id in Touched(token, xc) <==> MovesOn(token, xc, id)
  {
    hide CacheId, AggregateId;
    AggregateIdIs();
    CacheIdIs();
    forall id
      ensures id in Ids(token, xc) <==>
        || (xc.candlesticks.Some? && exists bin :: bin in xc.candlesticks.value && id == CacheId(token, bin))
        || (xc.depth.Some? && id == CacheId(token, ORDERBOOK_KEY))
    {
      var parts := Parts(xc);
      assert id in Ids(token, xc) <==> exists part :: part in parts && id == CacheId(token, part);
      if xc.candlesticks.Some? && exists bin :: bin in xc.candlesticks.value && id == CacheId(token, bin) {
        var bin :| bin in xc.candlesticks.value && id == CacheId(token, bin);
        assert bin in parts;
      }
      if xc.depth.Some? {
        assert ORDERBOOK_KEY in parts;
      }
    }
  }

  lemma AggregateIdIs()
    ensures AggregateId() == "aggregated-depth"
  {
  }

  lemma CacheIdIs()
    ensures forall token, part :: CacheId(token, part) == token + "-" + part
  {
  }

  class ExchangeBot {
    var chartVersions: map<string, int>
    var versionedCharts: map<string, Versioned>
    var exchanges: map<Token, XcState>
    var price: int

    /** The bot as a state, with the readers and the history there are besides it. */
    function View(readers: map<nat, Reader>, last: map<string, Data>, sent: seq<Sent>): State
      reads this
    {
      State(chartVersions, versionedCharts, exchanges, price, readers, last, sent)
    }

    constructor ()
      ensures View(map[], map[], []) == INITIAL
    {
      chartVersions, versionedCharts, exchanges, price := map[], map[], map[], 0;
    }

    method IncrementChart(id: string)
      modifies `chartVersions
      ensures chartVersions == Increment(old(chartVersions), {id})
    {
      if id in chartVersions {
        chartVersions := chartVersions[id := chartVersions[id] + 1];
      } else {
        chartVersions := chartVersions[id := 0];
      }
    }

    method CachedChartVersion(id: string) returns (version: int)
      ensures version == if id in chartVersions then chartVersions[id] else -1
    {
      version := if id in chartVersions then chartVersions[id] else -1;
    }

    /** The first lock section of a read. */
    method FetchFromCache(id: string) returns (data: Option<Chart>, bestVersion: int)
      ensures data == Lookup(View(map[], map[], []), id) && bestVersion == Version(View(map[], map[], []), id)
      ensures bestVersion == if id in chartVersions then chartVersions[id] else -1
      ensures data == if id in versionedCharts && versionedCharts[id].dataID == bestVersion
                      then Some(versionedCharts[id].chart) else None
    {
      bestVersion := CachedChartVersion(id);
      data := if id in versionedCharts && versionedCharts[id].dataID == bestVersion
              then Some(versionedCharts[id].chart) else None;
    }

    /** incrementChart for the candlesticks of each bin, in any order. */
    method IncrementBins(token: Token, bins: set<Bin>)
      requires DashFree(token)
      modifies `chartVersions
      ensures chartVersions == Increment(old(chartVersions), set bin | bin in bins :: CacheId(token, bin))
    {
      hide Increment, CacheId, DashFree;
      IncrementNone(chartVersions);
      var rest := bins;
      ghost var done: set<string> := {};
      ghost var ids: set<string> := {};
      while rest != {}
        invariant rest + done == bins && rest !! done
        invariant ids == set bin | bin in done :: CacheId(token, bin)
        invariant chartVersions == Increment(old(chartVersions), ids)
        decreases rest
      {
        var bin :| bin in rest;
        forall b | b in done
          ensures CacheId(token, b) != CacheId(token, bin)
        {
          if CacheId(token, b) == CacheId(token, bin) {
            CacheIdInjective(token, b, token, bin);
          }
        }
        IncrementTwice(old(chartVersions), ids, CacheId(token, bin));
        IncrementChart(CacheId(token, bin));
        rest, done, ids := rest - {bin}, done + {bin}, ids + {CacheId(token, bin)};
      }
      assert done == bins;
    }

    /** updateExchange; which exchanges are outdated, and the price that the others
        make, come from elsewhere. */
    method UpdateExchange(token: Token, xc: XcState, newPrice: int, dropped: set<Token>)
      requires Proper(token, xc)
      modifies `chartVersions, `exchanges, `price
      ensures View(map[], map[], [])
           == Update(old(View(map[], map[], [])), token, xc, newPrice, dropped).(last := map[], sent := [])
      ensures exchanges == old(exchanges)[token := xc] - dropped && price == newPrice
      ensures forall id ::
        && (id in chartVersions <==> id in old(chartVersions) || MovesOn(token, xc, id))
        && (id in old(chartVersions) ==>
              chartVersions[id] == old(chartVersions)[id] + if MovesOn(token, xc, id) then 1 else 0)
        && (id !in old(chartVersions) && MovesOn(token, xc, id) ==> chartVersions[id] == 0)
    {
      hide Increment, CacheId, DashFree, MovesOn;
      ghost var versions, ids := chartVersions, {};
      IncrementNone(versions);
      if xc.candlesticks.Some? {
        IncrementBins(token, xc.candlesticks.value.Keys);
        ids := set bin | bin in xc.candlesticks.value.Keys :: CacheId(token, bin);
      }
      if xc.depth.Some? {
        DepthIdsNew(token, xc, ids);
        IncrementTwice(versions, ids, CacheId(token, ORDERBOOK_KEY));
        IncrementChart(CacheId(token, ORDERBOOK_KEY));
        ids := ids + {CacheId(token, ORDERBOOK_KEY)};
        IncrementTwice(versions, ids, AggregateId());
        IncrementChart(AggregateId());
        ids := ids + {AggregateId()};
      }
      TouchedIds(token, xc, ids);
      TouchedMoves(token, xc);
      IncrementMeans(versions, ids);
      exchanges := exchanges[token := xc] - dropped;
      price := newPrice;
    }

    lemma TouchedIds(token: Token, xc: XcState, ids: set<string>)
      requires ids
        == (if xc.candlesticks.None? then {}
            else set bin | bin in xc.candlesticks.value.Keys :: CacheId(token, bin))
        + (if xc.depth.None? then {}
           else {CacheId(token, ORDERBOOK_KEY), AggregateId()})
      ensures ids == Touched(token, xc)
    {
      hide CacheId;
      assert forall bin :: bin in Parts(xc) <==>
        (xc.candlesticks.Some? && bin in xc.candlesticks.value) || (xc.depth.Some? && bin == ORDERBOOK_KEY);
    }

    lemma DepthIdsNew(token: Token, xc: XcState, ids: set<string>)
      requires Proper(token, xc)
      requires ids == if xc.candlesticks.None? then {}
                      else set bin | bin in xc.candlesticks.value.Keys :: CacheId(token, bin)
      ensures CacheId(token, ORDERBOOK_KEY) !in ids
      ensures AggregateId() !in ids + {CacheId(token, ORDERBOOK_KEY)}
    {
      hide CacheId, DashFree, Parts;
      forall bin | CacheId(token, bin) == CacheId(token, ORDERBOOK_KEY)
        ensures bin == ORDERBOOK_KEY
      {
        CacheIdInjective(token, bin, token, ORDERBOOK_KEY);
      }
      forall part
        ensures CacheId(token, part) != AggregateId()
      {
        NotAggregate(token, part);
      }
    }

    /** updateIndices, for what it does to the exchanges. */
    method UpdateIndices(newPrice: int, dropped: set<Token>)
      modifies `exchanges, `price
      ensures View(map[], map[], []) == Drop(old(View(map[], map[], [])), newPrice, dropped)
      ensures exchanges == old(exchanges) - dropped && price == newPrice
    {
      exchanges := exchanges - dropped;
      price := newPrice;
    }

    /** The second lock section of a read, which stores under the version read in the
        first. */
    method EncodeAndStore(r: nat, req: Request, bestVersion: int) returns (chart: Option<Chart>)
      modifies `versionedCharts
      ensures forall last, sent ::
        (chart, View(map[], last, sent)) == End(old(View(map[r := Reader(req, bestVersion, None)], last, sent)), r)
      ensures chart == match req
        case QuickSticks(token, bin) =>
          if token in exchanges && exchanges[token].candlesticks.Some?
             && bin in exchanges[token].candlesticks.value && exchanges[token].candlesticks.value[bin] != []
          then Some(Chart(Sticks(exchanges[token].candlesticks.value[bin]), price)) else None
        case QuickDepth(token) =>
          if token in exchanges && exchanges[token].depth.Some?
          then Some(Chart(Depth(exchanges[token].depth.value), price)) else None
      ensures versionedCharts ==
        if chart.None? then old(versionedCharts)
        else
          var id := req.token + "-" + match req case QuickSticks(_, bin) => bin case QuickDepth(_) => "depth";
          old(versionedCharts)[id := Versioned(bestVersion, chart.value)]
    {
      var data: Data;
      if req.token !in exchanges {
        return None;
      }
      var xc := exchanges[req.token];
      match req {
        case QuickDepth(_) =>
          if xc.depth.None? {
            return None;
          }
          data := Depth(xc.depth.value);
        case QuickSticks(_, bin) =>
          if xc.candlesticks.None? || bin !in xc.candlesticks.value {
            return None;
          }
          var sticks := xc.candlesticks.value[bin];
          if sticks == [] {
            return None;
          }
          data := Sticks(sticks);
      }
      chart := Some(Chart(data, price));
      versionedCharts := versionedCharts[req.Id() := Versioned(bestVersion, chart.value)];
    }

    /** The aggregate as encoded from a copy of the state. */
    method EncodeAggregate(r: nat, bestVersion: int) returns (chart: Chart, ghost version: int)
      ensures forall last, sent ::
        var reader := Reader(QuickDepth(AGGREGATED_KEY), bestVersion, None);
        View(map[r := reader.(encoded := Some(Encoded(chart, version)))], last, sent)
        == Encode(View(map[r := reader], last, sent), r)
      ensures chart.price == price && chart.data.Aggregate?
      ensures forall t :: t in chart.data.depths <==> t in exchanges && exchanges[t].depth.Some?
      ensures forall t :: t in chart.data.depths ==> exchanges[t].depth == Some(chart.data.depths[t])
    {
      version := Version(View(map[], map[], []), AggregateId());
      var state := exchanges;
      var books := map t | t in state && state[t].depth.Some? :: state[t].depth.value;
      chart := Chart(Aggregate(books), price);
    }

    /** The last step of reading the aggregate, outside of any lock section. */
    method StoreAggregate(r: nat, bestVersion: int, chart: Chart, ghost version: int)
      modifies `versionedCharts
      ensures forall last, sent ::
        var reader := Reader(QuickDepth(AGGREGATED_KEY), bestVersion, Some(Encoded(chart, version)));
        (Some(chart), View(map[], last, sent)) == Put(old(View(map[r := reader], last, sent)), r)
      ensures versionedCharts == old(versionedCharts)["aggregated-depth" := Versioned(bestVersion, chart)]
    {
      AggregateIdIs();
      versionedCharts := versionedCharts[AggregateId() := Versioned(bestVersion, chart)];
    }
  }
}
