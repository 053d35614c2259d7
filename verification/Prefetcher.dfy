/** The block prefetcher (rpcutils/prefetcher.go): a request is answered from the two
    blocks that are kept or from the wrapped fetcher, and leaves it to a goroutine to
    name the block that follows, which the fetcher goroutine then gets. The mutex is
    held from the request until that goroutine is done. Every interleaving of these
    steps is a run of the step functions below. */
module Prefetcher {
  import opened Common
  import opened StakeNodes

  const CHAN_CAPACITY := 10

  /** A verbose header: its own hash, and that of the next block if there is one. */
  datatype Header = Header(hash: Hash, nextHash: Option<Hash>)

  /** The wrapped fetcher, whose data for a hash does not change. */
  datatype Fetcher = Fetcher(block: Hash -> Option<Block>, header: Hash -> Option<Header>)

  /** A kept block; blank, as first constructed, it has the zero hash and no data. */
  datatype Slot = Blank | Kept(block: Block, header: Header)

  function HashOf(s: Slot): Hash {
    if s.Blank? then ZERO_HASH else s.block.hash
  }

  datatype Reply = Got(block: Block, header: Header) | GotNil | Error

  /** The state: kept blocks, counters, the retarget channel, the retarget that the
      mutex is held for (none when it is free), and the hash the fetcher goroutine has
      taken off the channel. */
  datatype State = State(
    current: Slot, next: Slot, hits: nat, misses: nat,
    queue: seq<Hash>, heldFor: Option<Option<Hash>>, fetching: Option<Hash>)

  const INITIAL := State(Blank, Blank, 0, 0, [], None, None)

  /** What the wrapped fetcher answers. */
  function Wrapped(f: Fetcher, h: Hash): Reply {
    match (f.block(h), f.header(h))
    case (Some(b), Some(hd)) => Got(b, hd)
    case _ => Error
  }

  /** GetBlockData, with the mutex free. */
  function Request(f: Fetcher, s: State, h: Hash): (Reply, State) {
    if HashOf(s.current) == h then
      (if s.current.Blank? then GotNil else Got(s.current.block, s.current.header),
       s.(hits := s.hits + 1))
    else if s.next.Kept? && HashOf(s.next) == h then
      (Got(s.next.block, s.next.header),
       s.(hits := s.hits + 1, heldFor := Some(s.next.header.nextHash)))
    else
      var reply := Wrapped(f, h);
      (reply,
       s.(misses := s.misses + 1, heldFor := if reply.Got? then Some(reply.header.nextHash) else None))
  }

  predicate KeepsHeader(slot: Slot, h: Hash) {
    slot.Kept? && slot.header.hash == h
  }

  /** The hash that retarget sends on the channel, if any. */
  function Order(s: State): Option<Hash> {
    match s.heldFor
    case Some(Some(h)) => if KeepsHeader(s.next, h) || KeepsHeader(s.current, h) then None else Some(h)
    case _ => None
  }

  /** retarget and unlock; it blocks while it has something to send and the channel is
      full. */
  function Retarget(s: State): State
    requires s.heldFor.Some? && (Order(s).Some? ==> |s.queue| < CHAN_CAPACITY)
  {
    s.(heldFor := None,
       queue := match Order(s) case Some(h) => s.queue + [h] case None => s.queue)
  }

  /** The fetcher goroutine receives from the channel. */
  function Take(s: State): State
    requires s.fetching.None? && s.queue != []
  {
    s.(fetching := Some(s.queue[0]), queue := s.queue[1..])
  }

  /** RetrieveAndStoreNext, with the mutex free. */
  function Store(f: Fetcher, s: State): State
    requires s.fetching.Some? && s.heldFor.None?
  {
    var h := s.fetching.value;
    if HashOf(s.next) == h || HashOf(s.current) == h then s.(fetching := None)
    else
      match Wrapped(f, h)
      case Got(b, hd) => s.(current := s.next, next := Kept(b, hd), fetching := None)
      case _ => s.(fetching := None)
  }

  // ------------------------------------------------------------------------
  // Transparency
  // ------------------------------------------------------------------------

  /** The fetcher returns the block and header it is asked for. */
  ghost predicate Honest(f: Fetcher) {
    && (forall h: Hash :: f.block(h).Some? ==> f.block(h).value.hash == h)
    && (forall h: Hash :: f.header(h).Some? ==> f.header(h).value.hash == h)
  }

  ghost predicate Faithful(f: Fetcher, slot: Slot) {
    slot.Kept? ==> Wrapped(f, slot.block.hash) == Got(slot.block, slot.header)
  }

  ghost predicate Valid(f: Fetcher, s: State) {
    Faithful(f, s.current) && Faithful(f, s.next)
  }

  /** One request: for any hash but the zero hash the answer is that of the wrapped
      fetcher, and it is counted once, as a hit exactly when the block was kept. */
  lemma RequestIsTransparent(f: Fetcher, s: State, h: Hash)
    requires Valid(f, s) && s.heldFor.None?
    ensures
      var (reply, after) := Request(f, s, h);
      && Valid(f, after)
      && (h != ZERO_HASH ==> reply == Wrapped(f, h))
      && after.hits + after.misses == s.hits + s.misses + 1
      && (h != ZERO_HASH ==> (after.hits == s.hits + 1 <==> h in {HashOf(s.current), HashOf(s.next)}))
      && (after.heldFor.Some? ==> reply.Got?)
  {
  }

  /** The reply is the fetcher's block with the fetcher's header, if it has both, and
      else an error. */
  predicate IsFetched(f: Fetcher, h: Hash, reply: Reply) {
    match reply
    case Got(block, header) => f.block(h) == Some(block) && f.header(h) == Some(header)
    case GotNil => false
    case Error => f.block(h) == None || f.header(h) == None
  }

  lemma WrappedIsFetched(f: Fetcher)
    ensures forall h, reply :: IsFetched(f, h, reply) <==> reply == Wrapped(f, h)
  {
  }

  /** When a request lets go of the mutex, it is with the next hash of what it returned
      and did not return as the current block; that hash goes on the channel unless a
      kept block is that block, and the rest of the state stays as it is. */
  lemma RetargetMeans(f: Fetcher, s: State, h: Hash)
    requires Valid(f, s) && s.heldFor.None? && h != ZERO_HASH
    ensures
      var (reply, asked) := Request(f, s, h);
      && asked == s.(hits := asked.hits, misses := asked.misses, heldFor := asked.heldFor)
      && (asked.heldFor.Some? <==> reply.Got? && !(s.current.Kept? && s.current.block.hash == h))
      && (asked.heldFor.Some? ==>
            && asked.heldFor == Some(f.header(h).value.nextHash)
            && (|s.queue| < 10 ==>
                  var kept := (if s.next.Kept? then {s.next.header.hash} else {})
                              + (if s.current.Kept? then {s.current.header.hash} else {});
                  && Enabled(asked, DoRetarget)
                  && Retarget(asked) == asked.(heldFor := None,
                                               queue := match f.header(h).value.nextHash
                                                        case Some(n) => if n in kept then s.queue else s.queue + [n]
                                                        case None => s.queue)))
  {
  }

  lemma StoreStaysFaithful(f: Fetcher, s: State)
    requires Valid(f, s) && Honest(f) && s.fetching.Some? && s.heldFor.None?
    ensures Valid(f, Store(f, s))
  {
  }

  datatype Action = Ask(h: Hash) | DoRetarget | DoTake | DoStore

  predicate Enabled(s: State, a: Action) {
    match a
    case Ask(_) => s.heldFor.None?
    case DoRetarget => s.heldFor.Some? && (Order(s).Some? ==> |s.queue| < CHAN_CAPACITY)
    case DoTake => s.fetching.None? && s.queue != []
    case DoStore => s.fetching.Some? && s.heldFor.None?
  }

  function Step(f: Fetcher, s: State, a: Action): State
    requires Enabled(s, a)
  {
    match a
    case Ask(h) => Request(f, s, h).1
    case DoRetarget => Retarget(s)
    case DoTake => Take(s)
    case DoStore => Store(f, s)
  }

  ghost predicate IsRun(f: Fetcher, s: State, actions: seq<Action>)
    decreases |actions|
  {
    actions == [] || (Enabled(s, actions[0]) && IsRun(f, Step(f, s, actions[0]), actions[1..]))
  }

  ghost function Run(f: Fetcher, s: State, actions: seq<Action>): State
    requires IsRun(f, s, actions)
    decreases |actions|
  {
    if actions == [] then s else Run(f, Step(f, s, actions[0]), actions[1..])
  }

  function Asked(actions: seq<Action>): seq<Hash> {
    if actions == [] then []
    else (match actions[0] case Ask(h) => [h] case _ => []) + Asked(actions[1..])
  }

  ghost function Replies(f: Fetcher, s: State, actions: seq<Action>): seq<Reply>
    requires IsRun(f, s, actions)
    decreases |actions|
  {
    if actions == [] then []
    else
      (match actions[0] case Ask(h) => [Request(f, s, h).0] case _ => [])
      + Replies(f, Step(f, s, actions[0]), actions[1..])
  }

  /** Over every interleaving of requests, retargets and fetcher steps, each request
      for a non-zero hash is answered as the wrapped fetcher would, and hits and misses
      add up to the requests made. */
  lemma Transparency(f: Fetcher, s: State, actions: seq<Action>)
    requires Honest(f) && Valid(f, s) && IsRun(f, s, actions)
    requires forall h :: h in Asked(actions) ==> h != ZERO_HASH
    ensures |Replies(f, s, actions)| == |Asked(actions)|
    ensures forall i :: 0 <= i < |Asked(actions)| ==> Replies(f, s, actions)[i] == Wrapped(f, Asked(actions)[i])
    ensures forall i :: 0 <= i < |Asked(actions)| ==> IsFetched(f, Asked(actions)[i], Replies(f, s, actions)[i])
    ensures Run(f, s, actions).hits + Run(f, s, actions).misses == s.hits + s.misses + |Asked(actions)|
  {
    hide Wrapped, Honest, Valid, IsRun, Asked, Replies, Run, IsFetched;
    RunIsTransparent(f, s, actions);
    WrappedIsFetched(f);
  }

  lemma {:induction false} RunIsTransparent(f: Fetcher, s: State, actions: seq<Action>)
    requires Honest(f) && Valid(f, s) && IsRun(f, s, actions)
    requires forall h :: h in Asked(actions) ==> h != ZERO_HASH
    ensures |Replies(f, s, actions)| == |Asked(actions)|
    ensures forall i :: 0 <= i < |Asked(actions)| ==> Replies(f, s, actions)[i] == Wrapped(f, Asked(actions)[i])
    ensures Run(f, s, actions).hits + Run(f, s, actions).misses == s.hits + s.misses + |Asked(actions)|
    decreases |actions|
  {
    hide Wrapped, Faithful, Honest, Request, Store, HashOf;
    if actions != [] {
      var a := actions[0];
      var after := Step(f, s, a);
      StepStaysValid(f, s, a);
      assert forall h :: h in Asked(actions[1..]) ==> h in Asked(actions);
      RunIsTransparent(f, after, actions[1..]);
      if a.Ask? {
        RequestIsTransparent(f, s, a.h);
        assert Asked(actions) == [a.h] + Asked(actions[1..]);
        assert a.h in Asked(actions);
        assert Replies(f, s, actions) == [Request(f, s, a.h).0] + Replies(f, after, actions[1..]);
      } else {
        assert Asked(actions) == Asked(actions[1..]);
        assert Replies(f, s, actions) == Replies(f, after, actions[1..]);
      }
    }
  }

  lemma StepStaysValid(f: Fetcher, s: State, a: Action)
    requires Honest(f) && Valid(f, s) && Enabled(s, a)
    ensures Valid(f, Step(f, s, a))
    ensures !a.Ask? ==> Step(f, s, a).hits == s.hits && Step(f, s, a).misses == s.misses
  {
    if a.DoStore? {
      StoreStaysFaithful(f, s);
    }
  }

  // ------------------------------------------------------------------------
  // Scanning forward
  // ------------------------------------------------------------------------

  /** The fetcher goroutine works off the channel while nobody holds the mutex. */
  function Drain(f: Fetcher, s: State): State
    requires s.heldFor.None?
    decreases |s.queue|, if s.fetching.Some? then 1 else 0
  {
    if s.fetching.Some? then Drain(f, Store(f, s))
    else if s.queue != [] then Drain(f, Store(f, Take(s)))
    else s
  }

  /** One request, the retarget it leads to, and the fetcher drained. */
  function Visit(f: Fetcher, s: State, h: Hash): State
    requires s.heldFor.None? && |s.queue| < CHAN_CAPACITY
  {
    var asked := Request(f, s, h).1;
    Drain(f, if asked.heldFor.Some? then Retarget(asked) else asked)
  }

  lemma {:induction false} Drained(f: Fetcher, s: State)
    requires s.heldFor.None?
    ensures Drain(f, s).heldFor.None? && Drain(f, s).queue == [] && Drain(f, s).fetching.None?
    ensures Drain(f, s).hits == s.hits && Drain(f, s).misses == s.misses
    decreases |s.queue|, if s.fetching.Some? then 1 else 0
  {
    if s.fetching.Some? {
      Drained(f, Store(f, s));
    } else if s.queue != [] {
      Drained(f, Store(f, Take(s)));
    }
  }

  function Scan(f: Fetcher, s: State, hashes: seq<Hash>): (r: State)
    requires s.heldFor.None? && s.queue == [] && s.fetching.None?
    decreases |hashes|
  {
    if hashes == [] then s
    else
      Drained(f, var asked := Request(f, s, hashes[0]).1; if asked.heldFor.Some? then Retarget(asked) else asked);
      Scan(f, Visit(f, s, hashes[0]), hashes[1..])
  }

  /** The hashes follow each other by NextHash and can all be fetched. */
  ghost predicate Forward(f: Fetcher, hashes: seq<Hash>) {
    && NoDup(hashes)
    && (forall i :: 0 <= i < |hashes| ==> hashes[i] != ZERO_HASH && Wrapped(f, hashes[i]).Got?)
    && (forall i :: 0 <= i < |hashes| - 1 ==> f.header(hashes[i]).value.nextHash == Some(hashes[i + 1]))
  }

  /** The block to be asked for next is kept as the next one. */
  ghost predicate Ahead(f: Fetcher, s: State, h: Hash) {
    && Valid(f, s)
    && s.heldFor.None? && s.queue == [] && s.fetching.None?
    && s.next.Kept? && HashOf(s.next) == h && HashOf(s.current) != h
  }

  /** Asking for the block that is ahead is a hit, and puts the one after it ahead. */
  lemma VisitAhead(f: Fetcher, s: State, h: Hash, after: Hash)
    requires Honest(f) && Ahead(f, s, h)
    ensures Visit(f, s, h).hits == s.hits + 1 && Visit(f, s, h).misses == s.misses
    ensures
      (f.header(h).value.nextHash == Some(after) && Wrapped(f, after).Got?
       && after != ZERO_HASH && after != h && after != HashOf(s.current)) ==>
      Ahead(f, Visit(f, s, h), after) && HashOf(Visit(f, s, h).current) == h
  {
    var asked := Request(f, s, h).1;
    var targeted := Retarget(asked);
    Drained(f, targeted);
    if f.header(h).value.nextHash == Some(after) && Wrapped(f, after).Got?
      && after != ZERO_HASH && after != h && after != HashOf(s.current)
    {
      assert targeted.queue == [after];
      var stored := Store(f, Take(targeted));
      assert Drain(f, stored) == stored;
      assert Drain(f, targeted) == stored;
    }
  }

  lemma {:induction false} ScanAhead(f: Fetcher, s: State, hashes: seq<Hash>, i: nat)
    requires Honest(f) && Forward(f, hashes) && i < |hashes| && Ahead(f, s, hashes[i])
    requires HashOf(s.current) == if i == 0 then ZERO_HASH else if s.current.Blank? then ZERO_HASH else hashes[i - 1]
    ensures Scan(f, s, hashes[i..]).hits == s.hits + |hashes| - i
    ensures Scan(f, s, hashes[i..]).misses == s.misses
    decreases |hashes| - i
  {
    hide Request, Retarget, Drain;
    var h := hashes[i];
    assert hashes[i..][0] == h && hashes[i..][1..] == hashes[i + 1..];
    if i + 1 < |hashes| {
      assert f.header(hashes[i]).value.nextHash == Some(hashes[i + 1]);
      VisitAhead(f, s, h, hashes[i + 1]);
      ScanAhead(f, Visit(f, s, h), hashes, i + 1);
    } else {
      VisitAhead(f, s, h, h);
    }
  }

  /** Scanning a chain forward by NextHash, with the fetcher keeping up, costs exactly
      one miss, however long the chain. */
  lemma ForwardScanMissesOnce(f: Fetcher, hashes: seq<Hash>)
    requires Honest(f) && Forward(f, hashes) && hashes != []
    ensures Scan(f, INITIAL, hashes).misses == 1
    ensures Scan(f, INITIAL, hashes).hits == |hashes| - 1
  {
    var h := hashes[0];
    var asked := Request(f, INITIAL, h).1;
    assert asked.misses == 1 && asked.heldFor.Some?;
    var targeted := Retarget(asked);
    Drained(f, targeted);
    if |hashes| > 1 {
      var after := hashes[1];
      assert f.header(hashes[0]).value.nextHash == Some(hashes[1]);
      assert targeted.queue == [after];
      var stored := Store(f, Take(targeted));
      assert Drain(f, stored) == stored;
      assert Visit(f, INITIAL, h) == stored;
      ScanAhead(f, stored, hashes, 1);
      assert hashes[1..] == hashes[1..];
    } else {
      assert hashes[1..] == [];
    }
  }

  // ------------------------------------------------------------------------
  // The client object
  // ------------------------------------------------------------------------

  class BlockPrefetchClient {
    const f: Fetcher
    var current: Slot
    var next: Slot
    var hits: nat
    var misses: nat
    var retargetChan: seq<Hash>
    var heldFor: Option<Option<Hash>>
    var fetching: Option<Hash>

    function View(): State
      reads this
    {
      State(current, next, hits, misses, retargetChan, heldFor, fetching)
    }

    constructor (f: Fetcher)
      ensures this.f == f && View() == INITIAL
    {
      this.f := f;
      current, next, hits, misses := Blank, Blank, 0, 0;
      retargetChan, heldFor, fetching := [], None, None;
    }

    /** GetBlockData, from taking the mutex to returning; unless the block is the
        current one or the retrieval fails, the mutex stays held for the retarget. */
    method GetBlockData(hash: Hash) returns (reply: Reply)
      requires heldFor.None?
      modifies this
      ensures (reply, View()) == Request(f, old(View()), hash)
    {
      if HashOf(current) == hash {
        hits := hits + 1;
        return if current.Blank? then GotNil else Got(current.block, current.header);
      }
      if next.Kept? && HashOf(next) == hash {
        reply := Got(next.block, next.header);
        heldFor := Some(next.header.nextHash);
        hits := hits + 1;
        return;
      }
      misses := misses + 1;
      reply := RetrieveBlockAndHeaderResult(hash);
      if reply.Got? {
        heldFor := Some(reply.header.nextHash);
      }
    }

    method RetrieveBlockAndHeaderResult(hash: Hash) returns (reply: Reply)
      ensures reply == Wrapped(f, hash)
    {
      var block := f.block(hash);
      if block.None? {
        return Error;
      }
      var header := f.header(hash);
      if header.None? {
        return Error;
      }
      return Got(block.value, header.value);
    }

    /** The goroutine that GetBlockData leaves behind. */
    method RetargetAndUnlock()
      requires heldFor.Some? && (Order(View()).Some? ==> |retargetChan| < CHAN_CAPACITY)
      modifies `retargetChan, `heldFor
      ensures View() == Retarget(old(View()))
    {
      var nextHash := heldFor.value;
      if nextHash.Some? {
        var h := nextHash.value;
        if !(next.Kept? && next.header.hash == h) && !(current.Kept? && current.header.hash == h) {
          retargetChan := retargetChan + [h];
        }
      }
      heldFor := None;
    }

    method Receive()
      requires fetching.None? && retargetChan != []
      modifies `retargetChan, `fetching
      ensures View() == Take(old(View()))
      ensures fetching == Some(old(retargetChan)[0]) && retargetChan == old(retargetChan)[1..]
    {
      fetching := Some(retargetChan[0]);
      retargetChan := retargetChan[1..];
    }

    method RetrieveAndStoreNext()
      requires fetching.Some? && heldFor.None?
      modifies `current, `next, `fetching
      ensures View() == Store(f, old(View()))
      ensures
        var h := old(fetching).value;
        if HashOf(old(next)) == h || HashOf(old(current)) == h || f.block(h).None? || f.header(h).None?
        then current == old(current) && next == old(next)
        else current == old(next) && next == Kept(f.block(h).value, f.header(h).value)
    {
      var nextHash := fetching.value;
      fetching := None;
      if HashOf(next) == nextHash || HashOf(current) == nextHash {
        return;
      }
      var reply := RetrieveBlockAndHeaderResult(nextHash);
      if reply.Got? {
        current := next;
        next := Kept(reply.block, reply.header);
      }
    }
  }
}
