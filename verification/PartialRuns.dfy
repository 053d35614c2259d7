/** Following the chain with an RPC that knows the amounts of some tickets at one time and
    not at another: everything but the live ticket cache is as with all amounts known, and
    the cache holds no wrong amount. */
module PartialRuns {
  import opened Common
  import opened PoolDiffs
  import opened StakeNodes
  import opened StakeDB
  import opened ChainMonitors

  type Value = Hash -> Option<int>

  /** The RPC answers with the right amount or not at all. */
  ghost predicate Partial(answers: Value, value: Value) {
    forall t: Hash :: answers(t).None? || answers(t) == value(t)
  }

  ghost predicate Under(live: map<Hash, int>, full: map<Hash, int>) {
    forall t :: t in live ==> t in full && full[t] == live[t]
  }

  ghost predicate Right(full: map<Hash, int>, value: Value) {
    forall t :: t in full ==> value(t) == Some(full[t])
  }

  /** Two databases that differ at most in amounts that the first one misses. */
  ghost predicate Alike(a: Db, b: Db, value: Value) {
    && a.node == b.node && a.blocks == b.blocks && a.diffs == b.diffs
    && Under(a.live, b.live) && Right(b.live, value)
  }

  function Knowing(rpc: Rpc, value: Value): Rpc {
    rpc.(value := value)
  }

  lemma ApplyUnder(live: map<Hash, int>, full: map<Hash, int>, d: PoolDiff, answers: Value, value: Value)
    requires Under(live, full) && Right(full, value) && Partial(answers, value)
    ensures Under(CacheApply(live, d, answers), CacheApply(full, d, value))
    ensures Right(CacheApply(full, d, value), value)
  {
  }

  /** A step keeps the cache complete exactly when no amount of a ticket that comes in to
      stay fails to be found. */
  lemma StaysCompleteExactly(full: map<Hash, int>, d: PoolDiff, answers: Value, value: Value)
    requires Right(full, value) && Partial(answers, value)
    ensures CacheApply(full, d, answers) == CacheApply(full, d, value)
       <==> forall t :: t in d.incoming && t !in d.outgoing && t !in full ==> answers(t) == value(t)
  {
    var a, b := CacheApply(full, d, answers), CacheApply(full, d, value);
    if forall t :: t in d.incoming && t !in d.outgoing && t !in full ==> answers(t) == value(t) {
      assert a.Keys == b.Keys;
      assert forall t :: t in a ==> a[t] == b[t];
      assert a == b;
    } else {
      var t :| t in d.incoming && t !in d.outgoing && t !in full && answers(t) != value(t);
      assert t in b && t !in a;
    }
  }

  lemma {:induction false} BackwardUnder(live: map<Hash, int>, full: map<Hash, int>, diffs: seq<PoolDiff>,
                                         hi: nat, lo: nat, answers: Value, value: Value)
    requires lo <= hi <= |diffs| && Under(live, full) && Right(full, value) && Partial(answers, value)
    ensures Under(CacheBackward(live, diffs, hi, lo, answers), CacheBackward(full, diffs, hi, lo, value))
    ensures Right(CacheBackward(full, diffs, hi, lo, value), value)
    decreases hi - lo
  {
    hide CacheApply, Under, Right, Partial;
    if lo < hi {
      BackwardUnder(live, full, diffs, hi, lo + 1, answers, value);
      ApplyUnder(CacheBackward(live, diffs, hi, lo + 1, answers), CacheBackward(full, diffs, hi, lo + 1, value),
                 diffs[lo].Swap(), answers, value);
    }
  }

  lemma ConnectAlike(rules: Rules, a: Db, b: Db, block: Block, rpc: Rpc, value: Value)
    requires Alike(a, b, value) && Partial(rpc.value, value)
    ensures Connect(rules, a, block, rpc).0 == Connect(rules, b, block, Knowing(rpc, value)).0
    ensures Alike(Connect(rules, a, block, rpc).1, Connect(rules, b, block, Knowing(rpc, value)).1, value)
  {
    hide CacheApply, Under, Right, Partial, CacheAfterConnect, DiffAt;
    assert MaturingFor(rules, a.blocks, block, rpc) == MaturingFor(rules, b.blocks, block, Knowing(rpc, value));
    match MaturingFor(rules, a.blocks, block, rpc)
    case None =>
    case Some(maturing) =>
      ApplyUnder(a.live, b.live, DiffAt(rules, a.node + [Link(block, maturing)], |a.node|), rpc.value, value);
  }

  lemma DisconnectAlike(rules: Rules, a: Db, b: Db, rpc: Rpc, value: Value)
    requires Alike(a, b, value) && Partial(rpc.value, value)
    ensures Disconnect(rules, a, false, rpc).0 == Disconnect(rules, b, false, Knowing(rpc, value)).0
    ensures Alike(Disconnect(rules, a, false, rpc).1, Disconnect(rules, b, false, Knowing(rpc, value)).1, value)
  {
    hide CacheBackward, Under, Right, Partial;
    forall keep: nat | keep <= |a.diffs|
      ensures Under(CacheBackward(a.live, a.diffs, |a.diffs|, keep, rpc.value),
                    CacheBackward(b.live, a.diffs, |a.diffs|, keep, value))
      ensures Right(CacheBackward(b.live, a.diffs, |a.diffs|, keep, value), value)
    {
      BackwardUnder(a.live, b.live, a.diffs, |a.diffs|, keep, rpc.value, value);
    }
  }

  lemma {:induction false} DisconnectManyAlike(rules: Rules, a: Db, b: Db, count: int, rpc: Rpc, value: Value)
    requires Alike(a, b, value) && Partial(rpc.value, value)
    ensures DisconnectMany(rules, a, count, rpc).0 == DisconnectMany(rules, b, count, Knowing(rpc, value)).0
    ensures Alike(DisconnectMany(rules, a, count, rpc).1, DisconnectMany(rules, b, count, Knowing(rpc, value)).1, value)
    decreases count
  {
    hide Alike, Disconnect, Partial, Knowing;
    if count > 0 {
      DisconnectAlike(rules, a, b, rpc, value);
      if Disconnect(rules, a, false, rpc).0 == Done {
        DisconnectManyAlike(rules, Disconnect(rules, a, false, rpc).1,
                            Disconnect(rules, b, false, Knowing(rpc, value)).1, count - 1, rpc, value);
      }
    }
  }

  lemma {:induction false} ConnectManyAlike(rules: Rules, a: Db, b: Db, hashes: seq<Hash>, rpc: Rpc, value: Value)
    requires Alike(a, b, value) && Partial(rpc.value, value)
    ensures ConnectMany(rules, a, hashes, rpc).0 == ConnectMany(rules, b, hashes, Knowing(rpc, value)).0
    ensures Alike(ConnectMany(rules, a, hashes, rpc).1, ConnectMany(rules, b, hashes, Knowing(rpc, value)).1, value)
    decreases |hashes|
  {
    hide Alike, Connect, Partial;
    if hashes != [] && rpc.block(hashes[0]).Some? {
      var block := rpc.block(hashes[0]).value;
      ConnectAlike(rules, a, b, block, rpc, value);
      if Connect(rules, a, block, rpc).0 == Done {
        ConnectManyAlike(rules, Connect(rules, a, block, rpc).1, Connect(rules, b, block, Knowing(rpc, value)).1,
                         hashes[1..], rpc, value);
      }
    }
  }

  /** An event as it is with an RPC that knows all amounts. */
  function Informed(e: Event, value: Value): Event {
    match e
    case NewBlock(block, rpc) => NewBlock(block, Knowing(rpc, value))
    case TakeBack(count, rpc) => TakeBack(count, Knowing(rpc, value))
    case SideChain(reorg, rpc, chain) => SideChain(reorg, Knowing(rpc, value), chain)
  }

  function AllInformed(events: seq<Event>, value: Value): (r: seq<Event>)
    ensures |r| == |events|
  {
    seq(|events|, i requires 0 <= i < |events| => Informed(events[i], value))
  }

  lemma StepAlike(rules: Rules, a: Db, b: Db, e: Event, value: Value)
    requires Alike(a, b, value) && Partial(e.rpc.value, value)
    ensures Alike(Step(rules, a, e), Step(rules, b, Informed(e, value)), value)
  {
    hide Connect, DisconnectMany, ConnectMany, SwitchEnd, Partial, Under, Right;
    match e
    case NewBlock(block, rpc) => ConnectAlike(rules, a, b, block, rpc, value);
    case TakeBack(count, rpc) => DisconnectManyAlike(rules, a, b, count, rpc, value);
    case SideChain(reorg, rpc, _) =>
      var count := |a.node| - reorg.AncestorHeight();
      DisconnectManyAlike(rules, a, b, count, rpc, value);
      ConnectManyAlike(rules, DisconnectMany(rules, a, count, rpc).1,
                       DisconnectMany(rules, b, count, Knowing(rpc, value)).1, reorg.newChain, rpc, value);
  }

  lemma {:induction false} RunAlike(rules: Rules, a: Db, b: Db, events: seq<Event>, value: Value)
    requires Alike(a, b, value) && forall e :: e in events ==> Partial(e.rpc.value, value)
    ensures Alike(Run(rules, a, events), Run(rules, b, AllInformed(events, value)), value)
    decreases |events|
  {
    hide Alike, Step, Informed, Partial;
    if events != [] {
      assert AllInformed(events, value)[1..] == AllInformed(events[1..], value);
      StepAlike(rules, a, b, events[0], value);
      RunAlike(rules, Step(rules, a, events[0]), Step(rules, b, Informed(events[0], value)), events[1..], value);
    }
  }

  /** After any run from genesis that is orderly but for amounts that cannot be looked up at
      times, the node and the diffs are those rebuilt from the chain, and the live cache is
      the rebuilt one without some tickets: it is complete exactly when every live ticket
      of known amount is in it. */
  lemma PartialRunsTrack(rules: Rules, value: Value, events: seq<Event>)
    requires rules.genesis.height == 0 && rules.maturity >= 1 && LotterySound(rules)
    requires forall e :: e in events ==> Partial(e.rpc.value, value)
    requires OrderlyRun(rules, value, GenesisDb(), AllInformed(events, value))
    ensures
      var db := Run(rules, GenesisDb(), events);
      var node := Rebuild(rules, Blocks(db.node));
      var full := CacheOf(value, LiveTickets(rules, node));
      && db.node == node && db.diffs == DiffsOf(rules, node)
      && Under(db.live, full)
      && (db.live == full <==> forall t :: t in LiveTickets(rules, node) && value(t).Some? ==> t in db.live)
  {
    hide Settled, LotterySound, OrderlyRun, Run, Rebuild, Partial, LiveTickets, DiffsOf;
    var informed := AllInformed(events, value);
    GenesisSettled(rules, value);
    RunAlike(rules, GenesisDb(), GenesisDb(), events, value);
    RunSettles(rules, value, GenesisDb(), informed);
    SettledIsRebuilt(rules, value, Run(rules, GenesisDb(), informed));
    var db := Run(rules, GenesisDb(), events);
    var full := CacheOf(value, LiveTickets(rules, Rebuild(rules, Blocks(db.node))));
    if forall t :: t in full ==> t in db.live {
      assert db.live.Keys == full.Keys;
      assert forall t :: t in full ==> db.live[t] == full[t];
      assert db.live == full;
    }
  }
}
