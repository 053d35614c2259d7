/** How the notifier runs its handlers (notification/notifier.go): the handlers of a
    group run concurrently and in any order, groups run one after the other, and the
    next message is not looked at before the last group of this one is through. The
    interleavings are the runs of a state machine; its log records what happened. */
module HandlerGroups {
  import opened Common

  type Handler = nat

  /** The registered groups. */
  datatype Config = Config(block: seq<set<Handler>>, reorg: seq<set<Handler>>)

  /** A reorganisation whose branches cannot be found is dropped. */
  datatype Message =
    | NewBlock(hash: Hash, prev: Hash)
    | NewBranch(oldHead: Hash, newHead: Hash, found: bool)
  {
    function Target(): Hash {
      match this
      case NewBlock(hash, _) => hash
      case NewBranch(_, newHead, _) => newHead
    }

    /** The block a consumer must be at for the message to make sense to it. */
    function From(): Hash {
      match this
      case NewBlock(_, prev) => prev
      case NewBranch(oldHead, _, _) => oldHead
    }
  }

  datatype Event =
    | Started(msg: nat, group: nat)
    | Finished(msg: nat, group: nat, handler: Handler)
    | Moved(msg: nat)

  datatype Phase = Idle | Serving(msg: nat, group: nat, pending: set<Handler>)

  /** Each handler has a tip of its own, which it moves when a message fits it. */
  datatype State = State(next: nat, previous: Hash, phase: Phase, tips: map<Handler, Hash>, log: seq<Event>)

  datatype Action =
    | Receive            // take the next message off the queue
    | Finish(h: Handler) // some running handler returns
    | Barrier            // the whole group has returned

  function Groups(cfg: Config, msg: Message): seq<set<Handler>> {
    if msg.NewBlock? then cfg.block else cfg.reorg
  }

  predicate Accepted(msg: Message, previous: Hash) {
    match msg
    case NewBlock(_, prev) => prev == previous
    case NewBranch(_, _, found) => found
  }

  /** Launch group g of a message, or record the new previous block after the last. */
  function Enter(cfg: Config, msgs: seq<Message>, s: State, m: nat, g: nat): State
    requires m < |msgs|
  {
    if g < |Groups(cfg, msgs[m])| then
      s.(phase := Serving(m, g, Groups(cfg, msgs[m])[g]), log := s.log + [Started(m, g)])
    else
      s.(phase := Idle, previous := msgs[m].Target(), log := s.log + [Moved(m)])
  }

  predicate Enabled(cfg: Config, msgs: seq<Message>, s: State, a: Action) {
    match a
    case Receive => s.phase.Idle? && s.next < |msgs|
    case Finish(h) => s.phase.Serving? && s.phase.msg < |msgs| && h in s.phase.pending
    case Barrier => s.phase.Serving? && s.phase.msg < |msgs| && s.phase.pending == {}
  }

  function Step(cfg: Config, msgs: seq<Message>, s: State, a: Action): State
    requires Enabled(cfg, msgs, s, a)
  {
    match a
    case Receive =>
      var taken := s.(next := s.next + 1);
      if Accepted(msgs[s.next], s.previous) then Enter(cfg, msgs, taken, s.next, 0) else taken
    case Finish(h) =>
      var msg := msgs[s.phase.msg];
      s.(phase := s.phase.(pending := s.phase.pending - {h}),
         tips := if h in s.tips && s.tips[h] == msg.From() then s.tips[h := msg.Target()] else s.tips,
         log := s.log + [Finished(s.phase.msg, s.phase.group, h)])
    case Barrier => Enter(cfg, msgs, s, s.phase.msg, s.phase.group + 1)
  }

  ghost predicate IsRun(cfg: Config, msgs: seq<Message>, s: State, actions: seq<Action>)
    decreases |actions|
  {
    actions == []
    || (Enabled(cfg, msgs, s, actions[0])
        && IsRun(cfg, msgs, Step(cfg, msgs, s, actions[0]), actions[1..]))
  }

  ghost function Run(cfg: Config, msgs: seq<Message>, s: State, actions: seq<Action>): State
    requires IsRun(cfg, msgs, s, actions)
    decreases |actions|
  {
    if actions == [] then s else Run(cfg, msgs, Step(cfg, msgs, s, actions[0]), actions[1..])
  }

  function Init(previous: Hash, tips: map<Handler, Hash>): State {
    State(0, previous, Idle, tips, [])
  }

  // ------------------------------------------------------------------------
  // Order
  // ------------------------------------------------------------------------

  /** All handlers of the first g groups have returned from message m. */
  ghost predicate Through(cfg: Config, msgs: seq<Message>, log: seq<Event>, m: nat, g: nat)
    requires m < |msgs|
  {
    forall i, h :: 0 <= i < g && i < |Groups(cfg, msgs[m])| && h in Groups(cfg, msgs[m])[i] ==>
      Finished(m, i, h) in log
  }

  ghost predicate AllThrough(cfg: Config, msgs: seq<Message>, log: seq<Event>, m: nat)
    requires m < |msgs|
  {
    Through(cfg, msgs, log, m, |Groups(cfg, msgs[m])|)
  }

  /** The previous block that the log leads to. */
  function LastMoved(msgs: seq<Message>, initial: Hash, log: seq<Event>): Hash {
    if log == [] then initial
    else
      var last := log[|log| - 1];
      if last.Moved? && last.msg < |msgs| then msgs[last.msg].Target()
      else LastMoved(msgs, initial, log[..|log| - 1])
  }

  /** What an event may rely on when it happens after the given log: a group starts
      only after all groups before it, of this message and of any earlier one; a block
      is handed on only if its PrevBlock is the recorded one; and the record moves only
      when all groups are through. */
  ghost predicate Justified(cfg: Config, msgs: seq<Message>, initial: Hash, log: seq<Event>, e: Event) {
    match e
    case Started(m, g) =>
      && m < |msgs| && g < |Groups(cfg, msgs[m])|
      && Through(cfg, msgs, log, m, g)
      && (forall i: nat, j: nat :: i < m && Started(i, j) in log ==> i < |msgs| && AllThrough(cfg, msgs, log, i))
      && (msgs[m].NewBlock? ==> msgs[m].prev == LastMoved(msgs, initial, log))
    case Finished(m, g, h) =>
      m < |msgs| && g < |Groups(cfg, msgs[m])| && h in Groups(cfg, msgs[m])[g] && Started(m, g) in log
    case Moved(m) => m < |msgs| && AllThrough(cfg, msgs, log, m)
  }

  ghost predicate Orderly(cfg: Config, msgs: seq<Message>, initial: Hash, log: seq<Event>) {
    forall p :: 0 <= p < |log| ==> Justified(cfg, msgs, initial, log[..p], log[p])
  }

  ghost predicate Inv(cfg: Config, msgs: seq<Message>, initial: Hash, s: State) {
    && s.next <= |msgs|
    && Orderly(cfg, msgs, initial, s.log)
    && (forall i: nat, j: nat :: Started(i, j) in s.log ==> i < s.next)
    && (forall i: nat, j: nat :: Started(i, j) in s.log && (s.phase.Serving? ==> i < s.phase.msg) ==>
          i < |msgs| && AllThrough(cfg, msgs, s.log, i))
    && (s.phase.Serving? ==>
          && s.next == s.phase.msg + 1
          && s.phase.group < |Groups(cfg, msgs[s.phase.msg])|
          && s.phase.pending <= Groups(cfg, msgs[s.phase.msg])[s.phase.group]
          && Started(s.phase.msg, s.phase.group) in s.log
          && Through(cfg, msgs, s.log, s.phase.msg, s.phase.group)
          && (forall h :: h in Groups(cfg, msgs[s.phase.msg])[s.phase.group] - s.phase.pending ==>
                Finished(s.phase.msg, s.phase.group, h) in s.log)
          && (msgs[s.phase.msg].NewBlock? ==> msgs[s.phase.msg].prev == s.previous))
    && s.previous == LastMoved(msgs, initial, s.log)
  }

  lemma ThroughGrows(cfg: Config, msgs: seq<Message>, log: seq<Event>, e: Event, m: nat, g: nat)
    requires m < |msgs| && Through(cfg, msgs, log, m, g)
    ensures Through(cfg, msgs, log + [e], m, g)
  {
  }

  lemma OrderlyGrows(cfg: Config, msgs: seq<Message>, initial: Hash, log: seq<Event>, e: Event)
    requires Orderly(cfg, msgs, initial, log) && Justified(cfg, msgs, initial, log, e)
    ensures Orderly(cfg, msgs, initial, log + [e])
  {
    hide Justified;
    var longer := log + [e];
    forall p | 0 <= p < |longer|
      ensures Justified(cfg, msgs, initial, longer[..p], longer[p])
    {
      assert longer[..p] == if p < |log| then log[..p] else log;
      if p < |log| {
        assert Justified(cfg, msgs, initial, log[..p], log[p]);
      }
    }
  }

  lemma LastMovedGrows(msgs: seq<Message>, initial: Hash, log: seq<Event>, e: Event)
    ensures LastMoved(msgs, initial, log + [e])
         == if e.Moved? && e.msg < |msgs| then msgs[e.msg].Target() else LastMoved(msgs, initial, log)
  {
    assert (log + [e])[..|log|] == log;
  }

  lemma EnterKeepsInv(cfg: Config, msgs: seq<Message>, initial: Hash, s: State, m: nat, g: nat)
    requires m < |msgs| && s.next == m + 1 && g <= |Groups(cfg, msgs[m])|
    requires Orderly(cfg, msgs, initial, s.log)
    requires forall i: nat, j: nat :: Started(i, j) in s.log ==> i <= m
    requires forall i: nat, j: nat :: Started(i, j) in s.log && i < m ==> AllThrough(cfg, msgs, s.log, i)
    requires Through(cfg, msgs, s.log, m, g)
    requires msgs[m].NewBlock? ==> msgs[m].prev == s.previous
    requires s.previous == LastMoved(msgs, initial, s.log)
    ensures Inv(cfg, msgs, initial, Enter(cfg, msgs, s, m, g))
  {
    hide Orderly, LastMoved, Through;
    var e := if g < |Groups(cfg, msgs[m])| then Started(m, g) else Moved(m);
    OrderlyGrows(cfg, msgs, initial, s.log, e);
    LastMovedGrows(msgs, initial, s.log, e);
    ThroughGrows(cfg, msgs, s.log, e, m, g);
    forall i: nat, j: nat | Started(i, j) in s.log && i < m
      ensures AllThrough(cfg, msgs, s.log + [e], i)
    {
      ThroughGrows(cfg, msgs, s.log, e, i, |Groups(cfg, msgs[i])|);
    }
  }

  lemma FinishKeepsInv(cfg: Config, msgs: seq<Message>, initial: Hash, s: State, h: Handler)
    requires Inv(cfg, msgs, initial, s) && Enabled(cfg, msgs, s, Finish(h))
    ensures Inv(cfg, msgs, initial, Step(cfg, msgs, s, Finish(h)))
  {
    hide Orderly, LastMoved, Through;
    var e := Finished(s.phase.msg, s.phase.group, h);
    OrderlyGrows(cfg, msgs, initial, s.log, e);
    LastMovedGrows(msgs, initial, s.log, e);
    ThroughGrows(cfg, msgs, s.log, e, s.phase.msg, s.phase.group);
    forall i: nat, j: nat | Started(i, j) in s.log && i < s.phase.msg
      ensures AllThrough(cfg, msgs, s.log + [e], i)
    {
      ThroughGrows(cfg, msgs, s.log, e, i, |Groups(cfg, msgs[i])|);
    }
  }

  lemma StepKeepsInv(cfg: Config, msgs: seq<Message>, initial: Hash, s: State, a: Action)
    requires Inv(cfg, msgs, initial, s) && Enabled(cfg, msgs, s, a)
    ensures Inv(cfg, msgs, initial, Step(cfg, msgs, s, a))
  {
    hide Orderly, LastMoved;
    match a
    case Receive =>
      if Accepted(msgs[s.next], s.previous) {
        EnterKeepsInv(cfg, msgs, initial, s.(next := s.next + 1), s.next, 0);
      }
    case Finish(h) => FinishKeepsInv(cfg, msgs, initial, s, h);
    case Barrier => EnterKeepsInv(cfg, msgs, initial, s, s.phase.msg, s.phase.group + 1);
  }

  lemma {:induction false} RunKeepsInv(cfg: Config, msgs: seq<Message>, initial: Hash, s: State, actions: seq<Action>)
    requires Inv(cfg, msgs, initial, s) && IsRun(cfg, msgs, s, actions)
    ensures Inv(cfg, msgs, initial, Run(cfg, msgs, s, actions))
    decreases |actions|
  {
    hide Inv, Step;
    if actions != [] {
      StepKeepsInv(cfg, msgs, initial, s, actions[0]);
      RunKeepsInv(cfg, msgs, initial, Step(cfg, msgs, s, actions[0]), actions[1..]);
    }
  }

  /** Over any queue and under any interleaving of the handlers, every event in the
      log of a run is justified by the events before it, and the recorded previous
      block is the target of the last message that all groups were through with. */
  lemma RunsAreOrderly(cfg: Config, msgs: seq<Message>, previous: Hash, tips: map<Handler, Hash>, actions: seq<Action>)
    requires IsRun(cfg, msgs, Init(previous, tips), actions)
    ensures
      var s := Run(cfg, msgs, Init(previous, tips), actions);
      && Orderly(cfg, msgs, previous, s.log)
      && s.previous == LastMoved(msgs, previous, s.log)
  {
    RunKeepsInv(cfg, msgs, previous, Init(previous, tips), actions);
  }

  // ------------------------------------------------------------------------
  // Nothing left out, nothing twice
  // ------------------------------------------------------------------------

  /** The recorded block after the first n messages: a block whose PrevBlock is the
      recorded one and a reorganisation whose branches are found move it, the others
      are passed over. */
  function RecordAfter(msgs: seq<Message>, initial: Hash, n: nat): Hash
    requires n <= |msgs|
  {
    if n == 0 then initial
    else
      var before := RecordAfter(msgs, initial, n - 1);
      match msgs[n - 1]
      case NewBlock(hash, prev) => if prev == before then hash else before
      case NewBranch(_, newHead, found) => if found then newHead else before
  }

  ghost predicate Taken(msgs: seq<Message>, initial: Hash, m: nat)
    requires m < |msgs|
  {
    match msgs[m]
    case NewBlock(_, prev) => prev == RecordAfter(msgs, initial, m)
    case NewBranch(_, _, found) => found
  }

  /** The events that serving a message consists of: each group is started, each handler
      of it returns, and the record moves. */
  ghost predicate Part(cfg: Config, msg: Message, e: Event) {
    var groups := match msg case NewBlock(_, _) => cfg.block case NewBranch(_, _, _) => cfg.reorg;
    match e
    case Started(_, g) => g < |groups|
    case Finished(_, g, h) => g < |groups| && h in groups[g]
    case Moved(_) => true
  }

  /** The parts of the message being served that have happened. */
  ghost predicate Already(phase: Phase, e: Event)
    requires phase.Serving?
  {
    match e
    case Started(_, g) => g <= phase.group
    case Finished(_, g, h) => g < phase.group || (g == phase.group && h !in phase.pending)
    case Moved(_) => false
  }

  /** The message being served, or else the next one. */
  function At(s: State): nat {
    if s.phase.Serving? then s.phase.msg else s.next
  }

  ghost predicate Happened(cfg: Config, msgs: seq<Message>, initial: Hash, s: State, e: Event) {
    && e.msg < |msgs| && Taken(msgs, initial, e.msg) && Part(cfg, msgs[e.msg], e)
    && (e.msg < At(s) || (s.phase.Serving? && e.msg == At(s) && Already(s.phase, e)))
  }

  function Once(b: bool): nat {
    if b then 1 else 0
  }

  ghost predicate Exact(cfg: Config, msgs: seq<Message>, initial: Hash, s: State) {
    && s.next <= |msgs|
    && (s.phase.Serving? ==>
          && s.next == s.phase.msg + 1 && Taken(msgs, initial, s.phase.msg)
          && s.phase.group < |Groups(cfg, msgs[s.phase.msg])|
          && s.phase.pending <= Groups(cfg, msgs[s.phase.msg])[s.phase.group])
    && s.previous == RecordAfter(msgs, initial, At(s))
    && forall e :: multiset(s.log)[e] == Once(Happened(cfg, msgs, initial, s, e))
  }

  /** Launching the next group, or moving the record after the last, is the one event. */
  lemma EnterExact(cfg: Config, msgs: seq<Message>, initial: Hash, s: State, m: nat, g: nat)
    requires m < |msgs| && s.next == m + 1 && Taken(msgs, initial, m) && g <= |Groups(cfg, msgs[m])|
    requires s.previous == RecordAfter(msgs, initial, m)
    requires forall e :: multiset(s.log)[e] == Once(
      && e.msg < |msgs| && Taken(msgs, initial, e.msg) && Part(cfg, msgs[e.msg], e)
      && (e.msg < m || (e.msg == m && !e.Moved? && e.group < g)))
    ensures Exact(cfg, msgs, initial, Enter(cfg, msgs, s, m, g))
  {
    var after := Enter(cfg, msgs, s, m, g);
    var last := if g < |Groups(cfg, msgs[m])| then Started(m, g) else Moved(m);
    assert after.log == s.log + [last];
    forall e
      ensures multiset(after.log)[e] == Once(Happened(cfg, msgs, initial, after, e))
    {
      assert multiset(after.log)[e] == multiset(s.log)[e] + Once(e == last);
    }
  }

  lemma FinishExact(cfg: Config, msgs: seq<Message>, initial: Hash, s: State, h: Handler)
    requires Exact(cfg, msgs, initial, s) && Enabled(cfg, msgs, s, Finish(h))
    ensures Exact(cfg, msgs, initial, Step(cfg, msgs, s, Finish(h)))
  {
    hide Taken, RecordAfter;
    var after := Step(cfg, msgs, s, Finish(h));
    var last := Finished(s.phase.msg, s.phase.group, h);
    forall e
      ensures multiset(after.log)[e] == Once(Happened(cfg, msgs, initial, after, e))
    {
      assert multiset(after.log)[e] == multiset(s.log)[e] + Once(e == last);
    }
  }

  lemma StepExact(cfg: Config, msgs: seq<Message>, initial: Hash, s: State, a: Action)
    requires Exact(cfg, msgs, initial, s) && Enabled(cfg, msgs, s, a)
    ensures Exact(cfg, msgs, initial, Step(cfg, msgs, s, a))
  {
    match a
    case Receive =>
      if Accepted(msgs[s.next], s.previous) {
        EnterExact(cfg, msgs, initial, s.(next := s.next + 1), s.next, 0);
      }
    case Finish(h) => FinishExact(cfg, msgs, initial, s, h);
    case Barrier => EnterExact(cfg, msgs, initial, s, s.phase.msg, s.phase.group + 1);
  }

  lemma {:induction false} RunExact(cfg: Config, msgs: seq<Message>, initial: Hash, s: State, actions: seq<Action>)
    requires Exact(cfg, msgs, initial, s) && IsRun(cfg, msgs, s, actions)
    ensures Exact(cfg, msgs, initial, Run(cfg, msgs, s, actions))
    decreases |actions|
  {
    hide Exact, Step;
    if actions != [] {
      StepExact(cfg, msgs, initial, s, actions[0]);
      RunExact(cfg, msgs, initial, Step(cfg, msgs, s, actions[0]), actions[1..]);
    }
  }

  /** Whenever the notifier is between messages, under whatever interleaving: of those it
      took off the queue, a block that follows the recorded one and a reorganisation whose
      branches were found went to every handler of every group exactly once, the others to
      none, and the recorded block is the one that this leads to. */
  lemma ServedExactlyOnce(cfg: Config, msgs: seq<Message>, previous: Hash, tips: map<Handler, Hash>,
                          actions: seq<Action>)
    requires IsRun(cfg, msgs, Init(previous, tips), actions)
    requires Run(cfg, msgs, Init(previous, tips), actions).phase.Idle?
    ensures
      var s := Run(cfg, msgs, Init(previous, tips), actions);
      && s.next <= |msgs|
      && s.previous == RecordAfter(msgs, previous, s.next)
      && forall e :: multiset(s.log)[e] ==
           if e.msg < s.next && Taken(msgs, previous, e.msg) && Part(cfg, msgs[e.msg], e) then 1 else 0
  {
    RunExact(cfg, msgs, previous, Init(previous, tips), actions);
  }

  // ------------------------------------------------------------------------
  // Consumers
  // ------------------------------------------------------------------------

  /** Every handler is registered once for blocks and once for reorganisations. */
  ghost predicate Registered(cfg: Config, handlers: set<Handler>) {
    && OncePerHandler(cfg.block, handlers)
    && OncePerHandler(cfg.reorg, handlers)
  }

  ghost predicate OncePerHandler(groups: seq<set<Handler>>, handlers: set<Handler>) {
    && (forall h :: h in handlers ==> exists i :: 0 <= i < |groups| && h in groups[i])
    && (forall i, j, h :: 0 <= i < j < |groups| && h in groups[i] ==> h !in groups[j])
    && (forall i, h :: 0 <= i < |groups| && h in groups[i] ==> h in handlers)
  }

  /** A handler has returned from the message being served. */
  ghost predicate Returned(cfg: Config, msgs: seq<Message>, phase: Phase, h: Handler)
    requires phase.Serving? && phase.msg < |msgs|
  {
    var groups := Groups(cfg, msgs[phase.msg]);
    exists i :: 0 <= i < |groups| && h in groups[i]
      && (i < phase.group || (i == phase.group && h !in phase.pending))
  }

  /** Between messages every consumer is at the recorded block; during one, at the
      message's target if it has returned and still at the recorded block if not. */
  ghost predicate InStep(cfg: Config, msgs: seq<Message>, s: State) {
    match s.phase
    case Idle => forall h :: h in s.tips ==> s.tips[h] == s.previous
    case Serving(m, g, pending) =>
      && m < |msgs| && g < |Groups(cfg, msgs[m])| && pending <= Groups(cfg, msgs[m])[g]
      && msgs[m].From() == s.previous
      && forall h :: h in s.tips ==>
           s.tips[h] == if Returned(cfg, msgs, s.phase, h) then msgs[m].Target() else s.previous
  }

  lemma EnterInStep(cfg: Config, msgs: seq<Message>, s: State, m: nat, g: nat)
    requires m < |msgs| && g <= |Groups(cfg, msgs[m])| && Registered(cfg, s.tips.Keys)
    requires msgs[m].From() == s.previous
    requires forall h :: h in s.tips ==>
      s.tips[h] == if exists i :: 0 <= i < g && h in Groups(cfg, msgs[m])[i] then msgs[m].Target() else s.previous
    ensures InStep(cfg, msgs, Enter(cfg, msgs, s, m, g))
  {
    var groups := Groups(cfg, msgs[m]);
    var after := Enter(cfg, msgs, s, m, g);
    if g < |groups| {
      forall h | h in s.tips
        ensures Returned(cfg, msgs, after.phase, h) <==> exists i :: 0 <= i < g && h in groups[i]
      {
      }
    }
  }

  /** When every reorganisation that is served leads away from the recorded block, all
      handlers find their messages fitting and stay in step with the notifier. */
  lemma StepKeepsStep(cfg: Config, msgs: seq<Message>, s: State, a: Action)
    requires InStep(cfg, msgs, s) && Enabled(cfg, msgs, s, a) && Registered(cfg, s.tips.Keys)
    requires a == Receive && msgs[s.next].NewBranch? ==> msgs[s.next].oldHead == s.previous
    ensures InStep(cfg, msgs, Step(cfg, msgs, s, a))
    ensures Step(cfg, msgs, s, a).tips.Keys == s.tips.Keys
  {
    match a
    case Receive =>
      if Accepted(msgs[s.next], s.previous) {
        EnterInStep(cfg, msgs, s.(next := s.next + 1), s.next, 0);
      }
    case Finish(h) => FinishInStep(cfg, msgs, s, h);
    case Barrier =>
      var m, g := s.phase.msg, s.phase.group;
      forall h | h in s.tips
        ensures Returned(cfg, msgs, s.phase, h) <==> exists i :: 0 <= i < g + 1 && h in Groups(cfg, msgs[m])[i]
      {
      }
      EnterInStep(cfg, msgs, s, m, g + 1);
  }

  lemma FinishInStep(cfg: Config, msgs: seq<Message>, s: State, h: Handler)
    requires InStep(cfg, msgs, s) && Enabled(cfg, msgs, s, Finish(h)) && Registered(cfg, s.tips.Keys)
    ensures InStep(cfg, msgs, Step(cfg, msgs, s, Finish(h)))
    ensures Step(cfg, msgs, s, Finish(h)).tips.Keys == s.tips.Keys
  {
    var m, g := s.phase.msg, s.phase.group;
    var groups := Groups(cfg, msgs[m]);
    var after := Step(cfg, msgs, s, Finish(h));
    assert h in groups[g];
    assert !Returned(cfg, msgs, s.phase, h);
    assert Returned(cfg, msgs, after.phase, h);
    forall other | other in s.tips && other != h
      ensures Returned(cfg, msgs, after.phase, other) == Returned(cfg, msgs, s.phase, other)
    {
    }
  }

  ghost predicate HeadsNamed(cfg: Config, msgs: seq<Message>, s: State, actions: seq<Action>)
    requires IsRun(cfg, msgs, s, actions)
    decreases |actions|
  {
    actions == []
    || ((actions[0] == Receive && msgs[s.next].NewBranch? ==> msgs[s.next].oldHead == s.previous)
        && HeadsNamed(cfg, msgs, Step(cfg, msgs, s, actions[0]), actions[1..]))
  }

  /** Under any interleaving, consumers that start at the recorded block are at the
      recorded block whenever the notifier is between messages. */
  lemma {:induction false} RunKeepsStep(cfg: Config, msgs: seq<Message>, s: State, actions: seq<Action>)
    requires InStep(cfg, msgs, s) && Registered(cfg, s.tips.Keys)
    requires IsRun(cfg, msgs, s, actions) && HeadsNamed(cfg, msgs, s, actions)
    ensures InStep(cfg, msgs, Run(cfg, msgs, s, actions))
    ensures Run(cfg, msgs, s, actions).phase.Idle? ==>
      forall h :: h in s.tips ==>
        h in Run(cfg, msgs, s, actions).tips
        && Run(cfg, msgs, s, actions).tips[h] == Run(cfg, msgs, s, actions).previous
    decreases |actions|
  {
    hide Step, Registered;
    if actions != [] {
      StepKeepsStep(cfg, msgs, s, actions[0]);
      RunKeepsStep(cfg, msgs, Step(cfg, msgs, s, actions[0]), actions[1..]);
    }
  }
}
