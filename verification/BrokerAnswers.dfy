/**
 What the broker's answers mean over whole runs: which publishes reach the log and
 as what, which subscriptions are refused, what a removal finds, and what the
 counters of a topic entry count.
 */
module BrokerAnswers {
  import opened Sequences
  import opened Bytes
  import opened Keys
  import opened Retention
  import opened FrameCodec
  import opened Fanout
  import opened Broker
  import opened BrokerRuns
  import opened Refusals
  import DedupeStore

  // ---- What is logged ---------------------------------------------------------------------

  datatype Call = Call(frame: Frame, at: Readings, duplicate: bool)

  /** The publishes that were accepted on a topic, as their publishers made them. */
  function CallsOn(c: Config, ops: seq<Op>, t: Topic): seq<Call> {
    if ops == [] then []
    else
      var n := |ops| - 1;
      var o := Run(c, ops).1[n];
      CallsOn(c, ops[..n], t) +
      if AcceptedOn(o, ops[n], t) then [Call(ops[n].frame, ops[n].at, o.duplicate)] else []
  }

  /** A record says of its publish who made it, what it carried, when, and under which id. */
  ghost predicate Tells(r: Record, call: Call, t: Topic) {
    && call.frame.topic == Some(t)
    && call.frame.messageId == Some(r.entry.messageId)
    && r.entry.publisherSession == call.frame.sessionId
    && r.entry.event == call.frame.event
    && r.entry.payload == (match call.frame.payload case None => [] case Some(p) => p)
    && r.entry.timestamp == call.frame.timestamp
    && r.entry.class_ == Utf8("event")
    && r.entry.appendedAt == None
    && r.now == call.at.append
    && r.duplicate == call.duplicate
  }

  function Utf8(s: string): bytes
    requires forall i :: 0 <= i < |s| ==> s[i] < 128 as char
  {
    seq(|s|, i requires 0 <= i < |s| => s[i] as int)
  }

  lemma {:induction false} RecordTells(c: Config, s: MemState, op: Op, t: Topic)
    requires AcceptedOn(Apply(c, s, op).1, op, t)
    ensures var o := Apply(c, s, op).1;
      Tells(Record(o.entry, o.duplicate, op.at.append), Call(op.frame, op.at, o.duplicate), t)
  {
    assert EVENT == Utf8("event");
  }

  /** A topic's history tells of the accepted publishes, one record each, in order. */
  lemma {:induction false} HistoryTellsCalls(c: Config, ops: seq<Op>, t: Topic)
    ensures |History(c, ops, t)| == |CallsOn(c, ops, t)|
    ensures forall i :: 0 <= i < |History(c, ops, t)| ==> Tells(History(c, ops, t)[i], CallsOn(c, ops, t)[i], t)
  {
    hide Apply, Tells;
    if ops != [] {
      var n := |ops| - 1;
      HistoryTellsCalls(c, ops[..n], t);
      if AcceptedOn(Run(c, ops).1[n], ops[n], t) {
        RecordTells(c, Run(c, ops[..n]).0, ops[n], t);
      }
    }
  }

  // ---- Topic entries and publisher counts -----------------------------------------------------

  /** A call that passed every check but, perhaps, the limit has created the topic's entry. */
  predicate Reaches(o: Outcome, op: Op, t: Topic) {
    match op
    case Publish(f, _) => f.topic == Some(t) && (o.Published? || o == Refused(PublisherLimit))
    case Subscribe(u, _) => u == t && (o.Subscribed? || o == Refused(SubscriberLimit))
    case _ => false
  }

  /** Some call since the last restart has reached the topic. */
  function Known(c: Config, ops: seq<Op>, t: Topic): bool {
    if ops == [] || ops[|ops| - 1].Restart? then false
    else
      var n := |ops| - 1;
      Reaches(Run(c, ops).1[n], ops[n], t) || Known(c, ops[..n], t)
  }

  /** Accepted publishes less returned slots, since the last restart. */
  function Held(c: Config, ops: seq<Op>, t: Topic): int {
    if ops == [] || ops[|ops| - 1].Restart? then 0
    else
      var n := |ops| - 1;
      Held(c, ops[..n], t)
        + (if AcceptedOn(Run(c, ops).1[n], ops[n], t) then 1 else 0)
        - (if ops[n] == DecPublisher(t) && Known(c, ops[..n], t) then 1 else 0)
  }

  function PublishersOf(topics: Topics, t: Topic): int { if t in topics then topics[t].publishers else 0 }

  /** One call, as one topic entry sees it. */
  ghost predicate EntryMoves(topics: Topics, op: Op, topics': Topics, o: Outcome, t: Topic) {
    && (t in topics' <==> Reaches(o, op, t) || t in topics)
    && (op == DecPublisher(t) ==> !Reaches(o, op, t))
    && (t in topics' ==>
          topics'[t].publishers == (PublishersOf(topics, t) + (if AcceptedOn(o, op, t) then 1 else 0)
                                    - (if op == DecPublisher(t) then 1 else 0)) % TWO_64)
  }

  lemma {:induction false} PublishEntry(c: Config, s: MemState, f: Frame, at: Readings, t: Topic)
    ensures var (s', o) := PublishStep(c, s, f, at); EntryMoves(s.topics, Publish(f, at), s'.topics, o, t)
  {
    hide ValidateName, Validate, Accept;
    if f.messageId.Some? && f.topic.Some? { AcceptReports(c, s, f.topic.value, f, at); }
    AcceptKeepsTopics(c, s, f, at);
  }

  lemma {:induction false} AcceptKeepsTopics(c: Config, s: MemState, f: Frame, at: Readings)
    ensures f.messageId.Some? ==>
      forall topics, t :: Accept(c, s.(topics := topics), t, f, at).0.topics == topics
    ensures Validate(c, f, at.validate) != Some(PublisherLimit)
  {
  }

  lemma {:induction false} SubscribeEntry(c: Config, s: MemState, u: Topic, sink: Sink, t: Topic)
    ensures var (s', o) := SubscribeStep(c, s, u, sink); EntryMoves(s.topics, Subscribe(u, sink), s'.topics, o, t)
  {
    hide ValidateName;
  }

  lemma {:induction false} EntryStep(c: Config, s: MemState, op: Op, t: Topic)
    requires !op.Restart?
    ensures var (s', o) := Apply(c, s, op); EntryMoves(s.topics, op, s'.topics, o, t)
  {
    hide PublishStep, SubscribeStep, Filter, Find;
    if op.Publish? {
      PublishEntry(c, s, op.frame, op.at, t);
    } else if op.Subscribe? {
      SubscribeEntry(c, s, op.topic, op.sink, t);
    } else if op.DropSink? {
      ReleaseKeepsPublishers(s.topics, Map(Filter(s.subs, OfSink(op.sinkId)), TopicOf()));
    }
  }

  lemma {:induction false} ReleaseKeepsPublishers(topics: Topics, ts: seq<Topic>)
    ensures ReleaseAll(topics, ts).Keys == topics.Keys
    ensures forall t :: t in topics ==> ReleaseAll(topics, ts)[t].publishers == topics[t].publishers
  {
    if ts != [] { ReleaseKeepsPublishers(topics, ts[..|ts| - 1]); }
  }

  /**
   A topic has an entry exactly when a call has reached it since the last restart,
   and its publisher count is the accepted publishes less the returned slots,
   modulo 2^64.
   */
  lemma {:induction false} PublishersCounted(c: Config, ops: seq<Op>, t: Topic)
    ensures var topics := Run(c, ops).0.topics;
      && (t in topics <==> Known(c, ops, t))
      && (t in topics ==> topics[t].publishers == Held(c, ops, t) % TWO_64)
      && (t !in topics ==> Held(c, ops, t) == 0)
  {
    hide Apply, Reaches;
    if ops != [] {
      var n := |ops| - 1;
      PublishersCounted(c, ops[..n], t);
      if ops[n].Restart? {
        RestartForgets(c, Run(c, ops[..n]).0);
      } else {
        EntryStep(c, Run(c, ops[..n]).0, ops[n], t);
        AcceptedReaches(c, Run(c, ops[..n]).0, ops[n], t);
        var s := Run(c, ops[..n]).0;
        if t in s.topics {
          ModStep(Held(c, ops[..n], t), Held(c, ops, t) - Held(c, ops[..n], t));
        }
      }
    }
  }

  lemma {:induction false} ModStep(x: int, d: int)
    ensures (x % TWO_64 + d) % TWO_64 == (x + d) % TWO_64
  {
    var q := x / TWO_64;
    assert x == q * TWO_64 + x % TWO_64;
    assert x + d == q * TWO_64 + (x % TWO_64 + d);
  }

  lemma {:induction false} RestartForgets(c: Config, s: MemState)
    ensures var s' := Apply(c, s, Restart).0;
      s'.topics == map[] && s'.subs == [] && s'.offsets == s.offsets && s'.logs == s.logs && s'.dedupe == s.dedupe
  {
  }

  lemma {:induction false} AcceptedReaches(c: Config, s: MemState, op: Op, t: Topic)
    ensures var o := Apply(c, s, op).1; AcceptedOn(o, op, t) ==> Reaches(o, op, t)
  {
  }

  /** Over every run: a publish is accepted exactly when it passes these checks. */
  lemma {:induction false} PublishAcceptedExactlyWhen(c: Config, ops: seq<Op>, f: Frame, at: Readings)
    ensures Apply(c, Run(c, ops).0, Publish(f, at)).1.Published? <==>
      && f.topic.Some? && f.messageId.Some?
      && (f.payload.Some? ==> |f.payload.value| <= c.maxPayload)
      && (f.ttlMs.Some? && f.timestamp > 0 ==> at.validate - f.timestamp <= f.ttlMs.value)
      && ValidName(f.topic.value)
      && Held(c, ops, f.topic.value) % TWO_64 < c.maxPublishers
  {
    hide PublishStep, Run, Held, ValidName;
    AcceptedExactlyWhen(c, Run(c, ops).0, f, at);
    if f.topic.Some? { PublishersCounted(c, ops, f.topic.value); }
  }

  // ---- Subscriptions ------------------------------------------------------------------------------

  function Live(s: MemState, t: Topic): nat { |Filter(s.subs, OnTopic(t))| }

  ghost predicate CountsLive(c: Config, s: MemState, t: Topic) {
    && Live(s, t) <= c.maxSubscribers
    && (if t in s.topics then s.topics[t].subscribers == Live(s, t) else Live(s, t) == 0)
  }

  function Occurrences(ts: seq<Topic>, t: Topic): nat {
    if ts == [] then 0 else Occurrences(ts[..|ts| - 1], t) + if ts[|ts| - 1] == t then 1 else 0
  }

  lemma {:induction false} ReleaseAllCounts(topics: Topics, ts: seq<Topic>, t: Topic)
    requires t in topics && Occurrences(ts, t) <= topics[t].subscribers
    ensures t in ReleaseAll(topics, ts)
    ensures ReleaseAll(topics, ts)[t].subscribers == topics[t].subscribers - Occurrences(ts, t)
  {
    if ts != [] { ReleaseAllCounts(topics, ts[..|ts| - 1], t); }
  }

  lemma {:induction false} OccurrencesAreLive(subs: seq<Sub>, t: Topic)
    ensures Occurrences(Map(subs, TopicOf()), t) == |Filter(subs, OnTopic(t))|
  {
    if subs != [] {
      var n := |subs| - 1;
      OccurrencesAreLive(subs[..n], t);
      assert Map(subs, TopicOf())[..n] == Map(subs[..n], TopicOf());
    }
  }

  lemma {:induction false} SplitBySink(subs: seq<Sub>, k: nat, t: Topic)
    ensures |Filter(subs, OnTopic(t))| ==
            |Filter(Filter(subs, OfSink(k)), OnTopic(t))| + |Filter(Filter(subs, NotOfSink(k)), OnTopic(t))|
  {
    if subs != [] {
      var n := |subs| - 1;
      SplitBySink(subs[..n], k, t);
      if subs[n].sink.id == k {
        FilterSnoc(Filter(subs[..n], OfSink(k)), subs[n], OnTopic(t));
      } else {
        FilterSnoc(Filter(subs[..n], NotOfSink(k)), subs[n], OnTopic(t));
      }
    }
  }

  lemma {:induction false} DropCounts(c: Config, s: MemState, k: nat, t: Topic)
    requires CountsLive(c, s, t)
    ensures CountsLive(c, DropSinkStep(s, k).0, t)
  {
    hide Filter;
    var mine := Filter(s.subs, OfSink(k));
    var freed := Map(mine, TopicOf());
    SplitBySink(s.subs, k, t);
    OccurrencesAreLive(mine, t);
    ReleaseKeepsPublishers(s.topics, freed);
    if t in s.topics { ReleaseAllCounts(s.topics, freed, t); }
  }

  lemma {:induction false} UnsubscribeCounts(c: Config, s: MemState, id: nat, t: Topic)
    requires CountsLive(c, s, t) && IdsAscend(s.subs, s.lastId)
    ensures CountsLive(c, UnsubscribeStep(s, id).0, t)
  {
    hide Filter;
    var found := Find(s.subs, id);
    if found.Some? { WithoutCounts(s.subs, s.lastId, found.value, OnTopic(t)); }
  }

  lemma {:induction false} SubscribeCounts(c: Config, s: MemState, u: Topic, sink: Sink, t: Topic)
    requires CountsLive(c, s, t)
    ensures CountsLive(c, SubscribeStep(c, s, u, sink).0, t)
  {
    hide ValidateName, Filter;
    FilterSnoc(s.subs, Sub(s.lastId + 1, u, sink), OnTopic(t));
  }

  lemma {:induction false} PublishCounts(c: Config, s: MemState, f: Frame, at: Readings, t: Topic)
    requires CountsLive(c, s, t)
    ensures CountsLive(c, PublishStep(c, s, f, at).0, t)
  {
    hide ValidateName, Filter;
  }

  lemma {:induction false} StepCounts(c: Config, s: MemState, op: Op, t: Topic)
    requires CountsLive(c, s, t) && IdsAscend(s.subs, s.lastId)
    ensures CountsLive(c, Apply(c, s, op).0, t)
  {
    hide PublishStep, SubscribeStep, UnsubscribeStep, DropSinkStep;
    match op
    case Publish(f, at) => PublishCounts(c, s, f, at, t);
    case Subscribe(u, sink) => SubscribeCounts(c, s, u, sink, t);
    case Unsubscribe(id) => UnsubscribeCounts(c, s, id, t);
    case DropSink(k) => DropCounts(c, s, k, t);
    case _ =>
  }

  lemma {:induction false} StepKeepsIds(c: Config, s: MemState, op: Op)
    requires IdsAscend(s.subs, s.lastId)
    ensures IdsAscend(Apply(c, s, op).0.subs, Apply(c, s, op).0.lastId)
  {
    hide Filter, ValidateName;
    if op.Subscribe? {
      AscendSnoc(s.subs, s.lastId, op.topic, op.sink);
    } else if op.Unsubscribe? {
      AscendFilter(s.subs, s.lastId, NotId(op.id));
    } else if op.DropSink? {
      AscendFilter(s.subs, s.lastId, NotOfSink(op.sinkId));
    }
  }

  /** Over every run live subscriptions have unique, increasing ids, none above the last one given out. */
  lemma {:induction false} IdsStayUnique(c: Config, ops: seq<Op>)
    ensures IdsAscend(Run(c, ops).0.subs, Run(c, ops).0.lastId)
  {
    hide Apply, IdsAscend;
    if ops == [] {
      assert IdsAscend([], 0) by { AscendFilter([], 0, NotId(0)); }
    } else {
      var n := |ops| - 1;
      IdsStayUnique(c, ops[..n]);
      StepKeepsIds(c, Run(c, ops[..n]).0, ops[n]);
    }
  }

  /**
   Over every run a topic's subscriber count is the number of its live
   subscriptions, and within the limit.
   */
  lemma {:induction false} SubscribersCounted(c: Config, ops: seq<Op>, t: Topic)
    ensures var s := Run(c, ops).0;
      && Live(s, t) <= c.maxSubscribers
      && (if t in s.topics then s.topics[t].subscribers == Live(s, t) else Live(s, t) == 0)
  {
    hide Apply;
    if ops != [] {
      var n := |ops| - 1;
      SubscribersCounted(c, ops[..n], t);
      IdsStayUnique(c, ops[..n]);
      StepCounts(c, Run(c, ops[..n]).0, ops[n], t);
    }
  }

  /**
   Over every run a subscribe with a valid name is refused exactly when as many
   subscriptions as the limit are live on the topic; otherwise it gets an id
   that no live subscription has, and only its own subscription is added.
   */
  lemma {:induction false} SubscribeRefusedExactlyWhen(c: Config, ops: seq<Op>, t: Topic, sink: Sink)
    ensures var s := Run(c, ops).0; var (s', o) := Apply(c, s, Subscribe(t, sink));
      if !ValidName(t) then o == Refused(InvalidName) && s'.subs == s.subs
      else if Live(s, t) == c.maxSubscribers then o == Refused(SubscriberLimit) && s'.subs == s.subs
      else
        && o.Subscribed? && s'.subs == s.subs + [Sub(o.id, t, sink)]
        && forall i :: 0 <= i < |s.subs| ==> s.subs[i].id < o.id
  {
    hide Run, ValidateName, ValidName, Filter, IdsAscend;
    var s := Run(c, ops).0;
    SubscribersCounted(c, ops, t);
    IdsStayUnique(c, ops);
    IdsBounded(s.subs, s.lastId);
    NameOkExactlyWhen(t);
    ShortNames(t);
  }

  /** An unsubscribe reports whether the id was live, and takes exactly that subscription away. */
  lemma {:induction false} UnsubscribeAnswers(c: Config, s: MemState, id: nat)
    ensures var (s', o) := Apply(c, s, Unsubscribe(id));
      && (o == Unsubscribed(true) <==> exists sub :: sub in s.subs && sub.id == id)
      && (o == Unsubscribed(false) <==> forall sub :: sub in s.subs ==> sub.id != id)
      && forall sub :: sub in s'.subs <==> sub in s.subs && sub.id != id
  {
    FilterMember(s.subs, NotId(id));
    var found := Find(s.subs, id);
    if found.Some? {
      assert found.value in s.subs;
    }
  }

  /** Dropping a sink reports how many subscriptions it had, and takes exactly those away. */
  lemma {:induction false} DropAnswers(c: Config, s: MemState, k: nat)
    ensures var (s', o) := Apply(c, s, DropSink(k));
      && o == Dropped(|s.subs| - |s'.subs|)
      && forall sub :: sub in s'.subs <==> sub in s.subs && sub.sink.id != k
  {
    hide ReleaseAll, Filter;
    FilterMember(s.subs, NotOfSink(k));
    FilterSplit(s.subs, OfSink(k), NotOfSink(k), Any());
    FilterAll(s.subs, Any());
  }

  function Any(): Sub -> bool { (s: Sub) => true }

  /** Maintenance reports how many dedupe records it removed: those whose time has come. */
  lemma {:induction false} MaintainAnswers(c: Config, s: MemState, now: int)
    ensures var (s', o) := Apply(c, s, Maintain(now));
      && o == Maintained(|s.dedupe| - |s'.dedupe|)
      && (forall k :: k in s'.dedupe <==> k in s.dedupe && s.dedupe[k] > now)
      && (forall k :: k in s'.dedupe ==> s'.dedupe[k] == s.dedupe[k])
      && s' == s.(dedupe := s'.dedupe)
  {
    var gone := DedupeStore.Expired(s.dedupe, now);
    var s' := Apply(c, s, Maintain(now)).0;
    assert s.dedupe.Keys == s'.dedupe.Keys + gone && s'.dedupe.Keys !! gone;
    assert |s.dedupe.Keys| == |s.dedupe| && |s'.dedupe.Keys| == |s'.dedupe|;
  }
}
