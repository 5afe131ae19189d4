/**
 Subscriber slots under interleaving: broker calls reserve a slot, register,
 remove and release in separate steps, any number of them at once.
 */
module Slots {
  import opened Sequences
  import opened Keys
  import opened Fanout
  import opened Tally

  /** Where one broker call stands. */
  datatype Caller =
    | Resting
    | Comparing(topic: Topic, sink: Sink, seen: int)
    | Holding(topic: Topic, sink: Sink)
    | Dropping(ids: seq<nat>, freed: seq<Topic>)
    | Releasing(topics: seq<Topic>)

  /** `count` has an entry per topic that the router has created. */
  datatype Broker = Broker(limit: nat, count: map<Topic, int>, subs: seq<Sub>, lastId: nat, callers: seq<Caller>)

  datatype Step =
    | Load(c: nat, topic: Topic, sink: Sink)
    | Refuse(c: nat)
    | Exchange(c: nat)
    | SpuriousFailure(c: nat)
    | Register(c: nat)
    | Unsubscribe(c: nat, id: nat)
    | BeginDrop(c: nat, sinkId: nat)
    | DropNext(c: nat)
    | EndDrop(c: nat)
    | Release(c: nat)
    | Finish(c: nat)

  function CountOf(s: Broker, t: Topic): int {
    if t in s.count then s.count[t] else 0
  }

  predicate Enabled(s: Broker, step: Step) {
    step.c < |s.callers| &&
    var k := s.callers[step.c];
    match step
    case Load(_, _, _) => k.Resting?
    case Refuse(_) => k.Comparing? && k.seen >= s.limit
    case Exchange(_) => k.Comparing? && k.seen < s.limit
    case SpuriousFailure(_) => k.Comparing? && k.seen < s.limit
    case Register(_) => k.Holding?
    case Unsubscribe(_, _) => k.Resting?
    case BeginDrop(_, _) => k.Resting?
    case DropNext(_) => k.Dropping? && k.ids != []
    case EndDrop(_) => k.Dropping? && k.ids == []
    case Release(_) => k.Releasing? && k.topics != []
    case Finish(_) => k.Releasing? && k.topics == []
  }

  function At(s: Broker, c: nat, k: Caller): Broker
    requires c < |s.callers|
  {
    s.(callers := s.callers[c := k])
  }

  function Next(s: Broker, step: Step): Broker
    requires Enabled(s, step)
  {
    var c, k := step.c, s.callers[step.c];
    match step
    case Load(_, t, sink) =>
      At(s.(count := s.count[t := CountOf(s, t)]), c, Comparing(t, sink, CountOf(s, t)))
    case Refuse(_) => At(s, c, Resting)
    case Exchange(_) =>
      if CountOf(s, k.topic) == k.seen
      then At(s.(count := s.count[k.topic := k.seen + 1]), c, Holding(k.topic, k.sink))
      else At(s, c, Comparing(k.topic, k.sink, CountOf(s, k.topic)))
    case SpuriousFailure(_) => At(s, c, Comparing(k.topic, k.sink, CountOf(s, k.topic)))
    case Register(_) =>
      At(s.(subs := s.subs + [Sub(s.lastId + 1, k.topic, k.sink)], lastId := s.lastId + 1), c, Resting)
    case Unsubscribe(_, id) =>
      (match Find(s.subs, id)
       case None => s
       case Some(sub) => At(s.(subs := Without(s.subs, id)), c, Releasing([sub.topic])))
    case BeginDrop(_, sinkId) => At(s, c, Dropping(SinkList(s.subs, sinkId), []))
    case DropNext(_) =>
      (match Find(s.subs, k.ids[0])
       case None => At(s, c, Dropping(k.ids[1..], k.freed))
       case Some(sub) => At(s.(subs := Without(s.subs, k.ids[0])), c, Dropping(k.ids[1..], k.freed + [sub.topic])))
    case EndDrop(_) => At(s, c, Releasing(k.freed))
    case Release(_) =>
      var t := k.topics[0];
      At(if t in s.count then s.(count := s.count[t := s.count[t] - 1]) else s, c, Releasing(k.topics[1..]))
    case Finish(_) => At(s, c, Resting)
  }

  // ---- Conservation -----------------------------------------------------------------

  function Occurrences(ts: seq<Topic>, t: Topic): nat {
    if ts == [] then 0 else (if ts[0] == t then 1 else 0) + Occurrences(ts[1..], t)
  }

  /** The slots of `t` that a call has taken and not registered, or freed and not released. */
  function TransitOf(k: Caller, t: Topic): nat {
    match k
    case Holding(u, _) => if u == t then 1 else 0
    case Dropping(_, freed) => Occurrences(freed, t)
    case Releasing(topics) => Occurrences(topics, t)
    case _ => 0
  }

  function InTransit(t: Topic): Caller -> nat { (k: Caller) => TransitOf(k, t) }

  function Registered(s: Broker, t: Topic): nat { |Filter(s.subs, OnTopic(t))| }

  ghost predicate Conserved(s: Broker, t: Topic) {
    && CountOf(s, t) == Registered(s, t) + Sum(s.callers, InTransit(t))
    && CountOf(s, t) <= s.limit
  }

  ghost predicate Inv(s: Broker) {
    && IdsAscend(s.subs, s.lastId)
    && forall t :: Conserved(s, t)
  }

  lemma {:induction false} SnocCounts(subs: seq<Sub>, s: Sub, t: Topic)
    ensures |Filter(subs + [s], OnTopic(t))| == |Filter(subs, OnTopic(t))| + if s.topic == t then 1 else 0
  {
    FilterAppend(subs, [s], OnTopic(t));
    assert Filter([s], OnTopic(t)) == if s.topic == t then [s] else [];
  }

  lemma {:induction false} OccurrencesSnoc(ts: seq<Topic>, u: Topic, t: Topic)
    ensures Occurrences(ts + [u], t) == Occurrences(ts, t) + if u == t then 1 else 0
  {
    if ts == [] {
      assert ts + [u] == [u] && [u][1..] == [];
    } else {
      OccurrencesSnoc(ts[1..], u, t);
      assert (ts + [u])[1..] == ts[1..] + [u];
    }
  }

  /** A step that moves the counter by as much as the other side of the balance keeps the balance. */
  lemma {:induction false} Balanced(s: Broker, s': Broker, c: nat, k: Caller, t: Topic)
    requires Conserved(s, t) && c < |s.callers| && s'.callers == s.callers[c := k] && s'.limit == s.limit
    requires CountOf(s', t) - CountOf(s, t) ==
             (Registered(s', t) - Registered(s, t)) + (TransitOf(k, t) - TransitOf(s.callers[c], t))
    requires CountOf(s', t) <= CountOf(s, t) || CountOf(s', t) <= s.limit
    ensures Conserved(s', t)
  {
    SumUpdate(s.callers, InTransit(t), c, k);
  }

  lemma {:induction false} RegisterConserves(s: Broker, step: Step, t: Topic)
    requires step.Register? && Enabled(s, step) && Conserved(s, t)
    ensures Conserved(Next(s, step), t)
  {
    var k := s.callers[step.c];
    SnocCounts(s.subs, Sub(s.lastId + 1, k.topic, k.sink), t);
    Balanced(s, Next(s, step), step.c, Resting, t);
  }

  /** Removing a live subscription and owing its topic one release is balanced. */
  lemma {:induction false} RemovalConserves(s: Broker, c: nat, sub: Sub, k: Caller, t: Topic)
    requires c < |s.callers| && IdsAscend(s.subs, s.lastId) && Conserved(s, t) && sub in s.subs
    requires TransitOf(k, t) == TransitOf(s.callers[c], t) + if sub.topic == t then 1 else 0
    ensures Conserved(At(s.(subs := Without(s.subs, sub.id)), c, k), t)
  {
    WithoutCounts(s.subs, s.lastId, sub, OnTopic(t));
    Balanced(s, At(s.(subs := Without(s.subs, sub.id)), c, k), c, k, t);
  }

  lemma {:induction false} UnsubscribeConserves(s: Broker, step: Step, t: Topic)
    requires step.Unsubscribe? && Enabled(s, step) && IdsAscend(s.subs, s.lastId) && Conserved(s, t)
    ensures Conserved(Next(s, step), t)
  {
    var f := Find(s.subs, step.id);
    if f.Some? {
      OccurrencesSnoc([], f.value.topic, t);
      assert [] + [f.value.topic] == [f.value.topic];
      RemovalConserves(s, step.c, f.value, Releasing([f.value.topic]), t);
    }
  }

  lemma {:induction false} DropNextConserves(s: Broker, step: Step, t: Topic)
    requires step.DropNext? && Enabled(s, step) && IdsAscend(s.subs, s.lastId) && Conserved(s, t)
    ensures Conserved(Next(s, step), t)
  {
    var k := s.callers[step.c];
    var f := Find(s.subs, k.ids[0]);
    if f.Some? {
      OccurrencesSnoc(k.freed, f.value.topic, t);
      RemovalConserves(s, step.c, f.value, Dropping(k.ids[1..], k.freed + [f.value.topic]), t);
    } else {
      Balanced(s, Next(s, step), step.c, Dropping(k.ids[1..], k.freed), t);
    }
  }

  lemma {:induction false} ReleaseConserves(s: Broker, step: Step, t: Topic)
    requires step.Release? && Enabled(s, step) && Conserved(s, t)
    ensures Conserved(Next(s, step), t)
  {
    SumUpdate(s.callers, InTransit(t), step.c, Resting);
    Balanced(s, Next(s, step), step.c, Releasing(s.callers[step.c].topics[1..]), t);
  }

  /** Every step keeps the balance of every topic. */
  lemma {:induction false} StepConserves(s: Broker, step: Step, t: Topic)
    requires Enabled(s, step) && IdsAscend(s.subs, s.lastId) && Conserved(s, t)
    ensures Conserved(Next(s, step), t)
  {
    if step.Register? {
      RegisterConserves(s, step, t);
    } else if step.Unsubscribe? {
      UnsubscribeConserves(s, step, t);
    } else if step.DropNext? {
      DropNextConserves(s, step, t);
    } else if step.Release? {
      ReleaseConserves(s, step, t);
    } else if step.Load? || step.Refuse? || step.Exchange? || step.SpuriousFailure? {
      ReserveConserves(s, step, t);
    } else {
      MoveConserves(s, step, t);
    }
  }

  lemma {:induction false} ReserveConserves(s: Broker, step: Step, t: Topic)
    requires step.Load? || step.Refuse? || step.Exchange? || step.SpuriousFailure?
    requires Enabled(s, step) && Conserved(s, t)
    ensures Conserved(Next(s, step), t)
  {
    Balanced(s, Next(s, step), step.c, Next(s, step).callers[step.c], t);
  }

  lemma {:induction false} MoveConserves(s: Broker, step: Step, t: Topic)
    requires step.BeginDrop? || step.EndDrop? || step.Finish?
    requires Enabled(s, step) && Conserved(s, t)
    ensures Conserved(Next(s, step), t)
  {
    Balanced(s, Next(s, step), step.c, Next(s, step).callers[step.c], t);
  }

  lemma {:induction false} RegisterKeepsIds(s: Broker, step: Step)
    requires step.Register? && Enabled(s, step) && IdsAscend(s.subs, s.lastId)
    ensures IdsAscend(Next(s, step).subs, Next(s, step).lastId)
  {
    AscendSnoc(s.subs, s.lastId, s.callers[step.c].topic, s.callers[step.c].sink);
  }

  lemma {:induction false} RemovalKeepsIds(s: Broker, step: Step)
    requires (step.Unsubscribe? || step.DropNext?) && Enabled(s, step) && IdsAscend(s.subs, s.lastId)
    ensures IdsAscend(Next(s, step).subs, Next(s, step).lastId)
  {
    AscendFilter(s.subs, s.lastId, NotId(if step.Unsubscribe? then step.id else s.callers[step.c].ids[0]));
  }

  lemma {:induction false} StepKeepsIds(s: Broker, step: Step)
    requires Enabled(s, step) && IdsAscend(s.subs, s.lastId)
    ensures IdsAscend(Next(s, step).subs, Next(s, step).lastId)
  {
    if step.Register? {
      RegisterKeepsIds(s, step);
    } else if step.Unsubscribe? || step.DropNext? {
      RemovalKeepsIds(s, step);
    } else {
      assert Next(s, step).subs == s.subs && Next(s, step).lastId == s.lastId;
    }
  }

  ghost predicate Execution(run: seq<Broker>, steps: seq<Step>) {
    && |run| == |steps| + 1
    && run[0].count == map[] && run[0].subs == [] && run[0].lastId == 0
    && (forall c :: 0 <= c < |run[0].callers| ==> run[0].callers[c].Resting?)
    && forall k :: 0 <= k < |steps| ==> Enabled(run[k], steps[k]) && run[k + 1] == Next(run[k], steps[k])
  }

  lemma {:induction false} Invariant(run: seq<Broker>, steps: seq<Step>, k: nat)
    requires Execution(run, steps) && k < |run|
    ensures Inv(run[k])
  {
    if k == 0 {
      forall t ensures Conserved(run[0], t) { SumZero(run[0].callers, InTransit(t)); }
    } else {
      Invariant(run, steps, k - 1);
      StepKeepsIds(run[k - 1], steps[k - 1]);
      forall t ensures Conserved(run[k], t) { StepConserves(run[k - 1], steps[k - 1], t); }
    }
  }

  /**
   In every interleaving a topic's counter equals its registered subscriptions
   plus the slots in transit, and stays within the limit.
   */
  lemma {:induction false} SlotsAreConserved(run: seq<Broker>, steps: seq<Step>, k: nat, t: Topic)
    requires Execution(run, steps) && k < |run|
    ensures CountOf(run[k], t) == Registered(run[k], t) + Sum(run[k].callers, InTransit(t))
    ensures CountOf(run[k], t) <= run[k].limit
  {
    Invariant(run, steps, k);
    assert Conserved(run[k], t);
  }

  /** A release always finds its topic in the store, with a counter that it can lower. */
  lemma {:induction false} ReleaseNeverUnderflows(run: seq<Broker>, steps: seq<Step>, k: nat)
    requires Execution(run, steps) && k < |steps| && steps[k].Release?
    ensures var t := run[k].callers[steps[k].c].topics[0];
            t in run[k].count && run[k].count[t] >= 1
  {
    var s, c := run[k], steps[k].c;
    var ts := s.callers[c].topics;
    var t := ts[0];
    SlotsAreConserved(run, steps, k, t);
    SumUpdate(s.callers, InTransit(t), c, Resting);
  }

  /** When every call has finished, the counter is the number of live subscriptions. */
  lemma {:induction false} QuietCountIsExact(run: seq<Broker>, steps: seq<Step>, k: nat, t: Topic)
    requires Execution(run, steps) && k < |run|
    requires forall c :: 0 <= c < |run[k].callers| ==> run[k].callers[c].Resting?
    ensures CountOf(run[k], t) == Registered(run[k], t)
  {
    SlotsAreConserved(run, steps, k, t);
    SumZero(run[k].callers, InTransit(t));
  }

  // ---- Which calls go through -------------------------------------------------------------

  lemma {:induction false} SeenStep(s: Broker, step: Step, c: nat)
    requires Enabled(s, step) && c < |Next(s, step).callers| && Next(s, step).callers[c].Comparing?
    ensures var k := Next(s, step).callers[c];
      k.seen == CountOf(s, k.topic) || (c < |s.callers| && s.callers[c] == k)
  {
    hide Filter, Find, Without;
  }

  /** The count that a subscribe compares against is one that it has read. */
  lemma {:induction false} SeenCount(run: seq<Broker>, steps: seq<Step>, k: nat, c: nat) returns (j: nat)
    requires Execution(run, steps) && k < |run| && c < |run[k].callers| && run[k].callers[c].Comparing?
    ensures j <= k && CountOf(run[j], run[k].callers[c].topic) == run[k].callers[c].seen
    ensures forall m :: j < m <= k ==> c < |run[m].callers| && run[m].callers[c] == run[k].callers[c]
  {
    hide Next, Enabled, CountOf;
    if k > 0 {
      SeenStep(run[k - 1], steps[k - 1], c);
      var caller := run[k].callers[c];
      if caller.seen == CountOf(run[k - 1], caller.topic) {
        j := k - 1;
      } else {
        j := SeenCount(run, steps, k - 1, c);
      }
    } else {
      assert false;
    }
  }

  /**
   A subscribe is refused only if, when it last read the count, all slots of its
   topic were taken by live subscriptions or by calls in progress.
   */
  lemma {:induction false} RefusedOnlyWhenFull(run: seq<Broker>, steps: seq<Step>, k: nat) returns (j: nat)
    requires Execution(run, steps) && k < |steps| && steps[k].Refuse?
    ensures j <= k && Enabled(run[k], steps[k])
    ensures var t := run[k].callers[steps[k].c].topic;
      Registered(run[j], t) + Sum(run[j].callers, InTransit(t)) >= run[k].limit
  {
    j := SeenCount(run, steps, k, steps[k].c);
    SlotsAreConserved(run, steps, j, run[k].callers[steps[k].c].topic);
  }

  /** A subscribe that nobody disturbs is refused exactly when no slot is left; else it registers itself alone. */
  lemma {:induction false} UndisturbedSubscribe(s: Broker, c: nat, t: Topic, sink: Sink)
    requires c < |s.callers| && s.callers[c].Resting?
    ensures var s1 := Next(s, Load(c, t, sink)); var n := CountOf(s, t);
      if n >= s.limit then
        && Enabled(s1, Refuse(c)) && !Enabled(s1, Exchange(c))
        && Next(s1, Refuse(c)) == s.(count := s.count[t := n])
      else
        && Enabled(s1, Exchange(c)) && !Enabled(s1, Refuse(c))
        && var s2 := Next(s1, Exchange(c));
        && Enabled(s2, Register(c))
        && Next(s2, Register(c)) ==
           s.(count := s.count[t := n + 1], subs := s.subs + [Sub(s.lastId + 1, t, sink)], lastId := s.lastId + 1)
  {
    var n := CountOf(s, t);
    assert s.callers[c := Resting] == s.callers;
    assert s.callers[c := Comparing(t, sink, n)][c := Resting] == s.callers;
    assert s.callers[c := Comparing(t, sink, n)][c := Holding(t, sink)][c := Resting] == s.callers;
    assert s.count[t := n][t := n + 1] == s.count[t := n + 1];
  }

  /** A subscribe that was disturbed, or failed for no reason, compares again with the count as it now is. */
  lemma {:induction false} DisturbedSubscribeRetries(s: Broker, c: nat)
    requires Enabled(s, Exchange(c))
    ensures Enabled(s, SpuriousFailure(c))
    ensures var k := s.callers[c];
      var again := s.(callers := s.callers[c := Comparing(k.topic, k.sink, CountOf(s, k.topic))]);
      && Next(s, SpuriousFailure(c)) == again
      && (CountOf(s, k.topic) != k.seen ==> Next(s, Exchange(c)) == again)
  {
  }

  /** An unsubscribe that nobody disturbs removes its subscription and gives its slot back. */
  lemma {:induction false} UndisturbedUnsubscribe(s: Broker, c: nat, sub: Sub)
    requires c < |s.callers| && s.callers[c].Resting? && Find(s.subs, sub.id) == Some(sub) && sub.topic in s.count
    ensures var s1 := Next(s, Unsubscribe(c, sub.id));
      && Enabled(s1, Release(c))
      && var s2 := Next(s1, Release(c));
      && Enabled(s2, Finish(c))
      && Next(s2, Finish(c)) ==
         s.(count := s.count[sub.topic := s.count[sub.topic] - 1], subs := Filter(s.subs, NotId(sub.id)))
  {
    hide Filter;
    assert s.callers[c := Resting] == s.callers;
    assert [sub.topic][1..] == [];
    assert s.callers[c := Releasing([sub.topic])][c := Releasing([])][c := Resting] == s.callers;
  }

  /** The removals of one drop, with nobody in between. */
  function DropRest(s: Broker, c: nat): Broker
    requires c < |s.callers| && s.callers[c].Dropping?
    decreases |s.callers[c].ids|
  {
    if s.callers[c].ids == [] then s else DropRest(Next(s, DropNext(c)), c)
  }

  lemma {:induction false} DropRestRemoves(s: Broker, c: nat, k: nat)
    requires c < |s.callers| && s.callers[c].Dropping? && IdsAscend(s.subs, s.lastId)
    requires s.callers[c].ids == SinkList(s.subs, k)
    ensures var s' := DropRest(s, c); var mine := Filter(s.subs, OfSink(k));
      && s'.subs == Filter(s.subs, NotOfSink(k)) && s'.count == s.count
      && s'.callers == s.callers[c := Dropping([], s.callers[c].freed + Map(mine, TopicOf()))]
    decreases |s.callers[c].ids|
  {
    hide Filter, Find;
    var mine, k0 := Filter(s.subs, OfSink(k)), s.callers[c];
    if mine == [] {
      NoneOfSink(s.subs, k);
      assert k0.freed + Map(mine, TopicOf()) == k0.freed && k0.ids == [];
      assert s.callers[c := Dropping([], k0.freed)] == s.callers;
    } else {
      var s1 := Next(s, DropNext(c));
      DropOne(s, c, k);
      hide Next, Enabled, SinkList, IdsAscend;
      DropRestRemoves(s1, c, k);
      assert k0.freed + [mine[0].topic] + Map(mine[1..], TopicOf()) == k0.freed + Map(mine, TopicOf());
    }
  }

  /** One removal of a drop takes the sink's oldest subscription. */
  lemma {:induction false} DropOne(s: Broker, c: nat, k: nat)
    requires c < |s.callers| && s.callers[c].Dropping? && IdsAscend(s.subs, s.lastId)
    requires s.callers[c].ids == SinkList(s.subs, k) && s.callers[c].ids != []
    ensures Enabled(s, DropNext(c)) && var s' := Next(s, DropNext(c)); var mine := Filter(s.subs, OfSink(k));
      && mine != [] && IdsAscend(s'.subs, s'.lastId) && s'.count == s.count
      && s'.callers == s.callers[c := Dropping(SinkList(s'.subs, k), s.callers[c].freed + [mine[0].topic])]
      && Filter(s'.subs, OfSink(k)) == mine[1..]
      && Filter(s'.subs, NotOfSink(k)) == Filter(s.subs, NotOfSink(k))
  {
    hide Filter, Find;
    var mine, ids := Filter(s.subs, OfSink(k)), s.callers[c].ids;
    NextOfSink(s.subs, s.lastId, k, mine);
    AscendFilter(s.subs, s.lastId, NotId(mine[0].id));
    assert ids[0] == mine[0].id && ids[1..] == Map(mine[1..], IdOf());
  }

  /** A drop that nobody disturbs removes exactly the sink's subscriptions and owes one release for each. */
  lemma {:induction false} UndisturbedDrop(s: Broker, c: nat, k: nat)
    requires c < |s.callers| && s.callers[c].Resting? && IdsAscend(s.subs, s.lastId)
    ensures var s' := DropRest(Next(s, BeginDrop(c, k)), c);
      && s'.subs == Filter(s.subs, NotOfSink(k)) && s'.count == s.count
      && Enabled(s', EndDrop(c))
      && Next(s', EndDrop(c)).callers[c] == Releasing(Map(Filter(s.subs, OfSink(k)), TopicOf()))
  {
    hide Filter;
    DropRestRemoves(Next(s, BeginDrop(c, k)), c, k);
    assert [] + Map(Filter(s.subs, OfSink(k)), TopicOf()) == Map(Filter(s.subs, OfSink(k)), TopicOf());
  }
}
