/**
 The broker: how a publish is validated, deduplicated, given an offset, logged
 and fanned out, and how subscriptions come and go. Every call is one step.
 */
module Broker {
  import opened Sequences
  import opened Bytes
  import opened Keys
  import opened Retention
  import opened FrameCodec
  import opened Fanout
  import OffsetStore
  import LogStore
  import DedupeStore

  /** The broker's own settings, and those of the profile that new topics get. */
  datatype Config = Config(retention: Policy, maxPublishers: u64, maxSubscribers: u64, window: nat, maxPayload: nat)

  /** A topic entry's counters. */
  datatype Counts = Counts(publishers: u64, subscribers: u64)

  type Topics = map<Topic, Counts>

  /** A broker's state, over the states of its three stores. */
  datatype State<O, L, D> = State(
    topics: Topics,
    offsets: O,
    logs: L,
    dedupe: D,
    subs: seq<Sub>,
    lastId: nat
  )

  type MemState = State<OffsetStore.Counters, LogStore.Logs, DedupeStore.Expiries>

  const EMPTY: MemState := State(map[], map[], map[], map[], [], 0)

  /** The clock as a publish reads it: for the frame's ttl, for the dedupe window, for retention. */
  datatype Readings = Readings(validate: int, dedupe: int, append: int)

  datatype Reject =
    | MissingTopic
    | MissingMessageId
    | TooLarge(actual: nat, max: nat)
    | FrameExpired
    | InvalidName
    | PublisherLimit
    | SubscriberLimit

  datatype Delivery = Delivery(sink: Sink, buf: bytes)

  datatype Op =
    | Publish(frame: Frame, at: Readings)
    | Subscribe(topic: Topic, sink: Sink)
    | Unsubscribe(id: nat)
    | DropSink(sinkId: nat)
    | DecPublisher(topic: Topic)
    | Maintain(now: int)
    | Restart

  datatype Outcome =
    | Refused(reason: Reject)
    | Published(topic: Topic, entry: LogEntry, duplicate: bool, deliveries: seq<Delivery>)
    | Subscribed(id: nat)
    | Unsubscribed(found: bool)
    | Dropped(count: nat)
    | Decremented
    | Maintained(removed: nat)
    | Restarted

  // ---- Publish ---------------------------------------------------------------------

  predicate Outlived(f: Frame, now: int) {
    f.ttlMs.Some? && f.timestamp > 0 && now - f.timestamp > f.ttlMs.value
  }

  function Validate(c: Config, f: Frame, now: int): (r: Option<Reject>)
    ensures r.None? ==> f.topic.Some? && f.messageId.Some?
  {
    if f.topic.None? then Some(MissingTopic)
    else if f.messageId.None? then Some(MissingMessageId)
    else if f.payload.Some? && |f.payload.value| > c.maxPayload then Some(TooLarge(|f.payload.value|, c.maxPayload))
    else if Outlived(f, now) then Some(FrameExpired)
    else None
  }

  /** The entry of a topic, created on demand. */
  function Route(topics: Topics, t: Topic): (r: Topics)
    ensures t in r
  {
    if t in topics then topics else topics[t := Counts(0, 0)]
  }

  /** The message class that every publish is logged under. */
  const EVENT: bytes := [0x65, 0x76, 0x65, 0x6E, 0x74]

  function EntryFor(f: Frame, offset: i64): LogEntry
    requires f.messageId.Some?
  {
    LogEntry(offset, f.sessionId, f.messageId.value, EVENT, f.event, f.payload.GetOr([]), f.timestamp, None)
  }

  function SendTo(buf: bytes): Sub -> Delivery { (s: Sub) => Delivery(s.sink, buf) }

  function Deliveries(subs: seq<Sub>, t: Topic, buf: bytes): seq<Delivery> {
    Map(Filter(subs, OnTopic(t)), SendTo(buf))
  }

  datatype Admission = Turned(topics: Topics, reason: Reject) | Admitted(topics: Topics, topic: Topic)

  /** Every check that a publish must pass before it reaches a store. */
  function Admit(c: Config, topics: Topics, f: Frame, now: int): (r: Admission)
    ensures r.Admitted? ==> f.topic == Some(r.topic) && f.messageId.Some? && NulFree(r.topic)
  {
    var invalid := Validate(c, f, now);
    if invalid.Some? then Turned(topics, invalid.value)
    else if !ValidateName(f.topic.value).NameOk? then Turned(topics, InvalidName)
    else
      var t := f.topic.value;
      var routed := Route(topics, t);
      var n := routed[t].publishers;
      if n >= c.maxPublishers then Turned(routed, PublisherLimit)
      else Admitted(routed[t := routed[t].(publishers := n + 1)], t)
  }

  /** What an admitted publish reports and fans out. */
  function Report(subs: seq<Sub>, t: Topic, f: Frame, offset: i64, isNew: bool): Outcome
    requires f.messageId.Some?
  {
    Published(t, EntryFor(f, offset), !isNew,
              if isNew then Deliveries(subs, t, SerializeForFanout(f.payload, offset)) else [])
  }

  /** An admitted publish: deduplicate, allocate, log, fan out. */
  function Accept(c: Config, s: MemState, t: Topic, f: Frame, at: Readings): (MemState, Outcome)
    requires f.messageId.Some?
  {
    var (dedupe, isNew) := DedupeStore.MemCheck(s.dedupe, (t, f.messageId.value), at.dedupe, c.window);
    var (offsets, offset) := OffsetStore.MemApply(s.offsets, OffsetStore.Alloc(t));
    var logs := LogStore.MemAppend(s.logs, t, EntryFor(f, offset), c.retention, at.append);
    (s.(offsets := offsets, logs := logs, dedupe := dedupe), Report(s.subs, t, f, offset, isNew))
  }

  function PublishStep(c: Config, s: MemState, f: Frame, at: Readings): (MemState, Outcome) {
    match Admit(c, s.topics, f, at.validate)
    case Turned(topics, reason) => (s.(topics := topics), Refused(reason))
    case Admitted(topics, t) => Accept(c, s.(topics := topics), t, f, at)
  }

  // ---- Subscriptions ----------------------------------------------------------------

  function SubscribeStep<O, L, D>(c: Config, s: State<O, L, D>, t: Topic, sink: Sink): (State<O, L, D>, Outcome) {
    if !ValidateName(t).NameOk? then (s, Refused(InvalidName))
    else
      var topics := Route(s.topics, t);
      var n := topics[t].subscribers;
      if n >= c.maxSubscribers then (s.(topics := topics), Refused(SubscriberLimit))
      else
        var id := s.lastId + 1;
        (s.(topics := topics[t := topics[t].(subscribers := n + 1)], subs := s.subs + [Sub(id, t, sink)], lastId := id),
         Subscribed(id))
  }

  /** `fetch_sub(1)` wraps below zero. */
  function WrappingDec(n: u64): u64 { if n == 0 then TWO_64 - 1 else n - 1 }

  function ReleaseSubscriber(topics: Topics, t: Topic): Topics {
    if t in topics then topics[t := topics[t].(subscribers := WrappingDec(topics[t].subscribers))] else topics
  }

  function ReleaseAll(topics: Topics, ts: seq<Topic>): Topics {
    if ts == [] then topics else ReleaseSubscriber(ReleaseAll(topics, ts[..|ts| - 1]), ts[|ts| - 1])
  }

  function UnsubscribeStep<O, L, D>(s: State<O, L, D>, id: nat): (State<O, L, D>, Outcome) {
    match Find(s.subs, id)
    case None => (s, Unsubscribed(false))
    case Some(sub) =>
      (s.(topics := ReleaseSubscriber(s.topics, sub.topic), subs := Without(s.subs, id)), Unsubscribed(true))
  }

  function DropSinkStep<O, L, D>(s: State<O, L, D>, sinkId: nat): (State<O, L, D>, Outcome) {
    var freed := Map(Filter(s.subs, OfSink(sinkId)), TopicOf());
    (s.(topics := ReleaseAll(s.topics, freed), subs := Filter(s.subs, NotOfSink(sinkId))), Dropped(|freed|))
  }

  function DecPublisherStep<O, L, D>(s: State<O, L, D>, t: Topic): (State<O, L, D>, Outcome) {
    if t !in s.topics then (s, Decremented)
    else
      var counts := s.topics[t];
      (s.(topics := s.topics[t := counts.(publishers := WrappingDec(counts.publishers))]), Decremented)
  }

  function MaintainStep(s: MemState, now: int): (MemState, Outcome) {
    var (dedupe, removed) := DedupeStore.MemSweep(s.dedupe, now);
    (s.(dedupe := dedupe), Maintained(removed))
  }

  /**
   The process stops and a new one opens the same stores: topic entries and
   subscriptions are lost. Over the in-memory stores, which do not outlive a
   process, this is what a persistent broker is to be measured by.
   */
  function RestartStep<O, L, D>(s: State<O, L, D>): (State<O, L, D>, Outcome) {
    (s.(topics := map[], subs := [], lastId := 0), Restarted)
  }

  function Apply(c: Config, s: MemState, op: Op): (MemState, Outcome) {
    match op
    case Publish(f, at) => PublishStep(c, s, f, at)
    case Subscribe(t, sink) => SubscribeStep(c, s, t, sink)
    case Unsubscribe(id) => UnsubscribeStep(s, id)
    case DropSink(sinkId) => DropSinkStep(s, sinkId)
    case DecPublisher(t) => DecPublisherStep(s, t)
    case Maintain(now) => MaintainStep(s, now)
    case Restart => RestartStep(s)
  }

  // ---- The broker object -------------------------------------------------------------

  /** The in-process broker, wired to the in-memory stores. */
  class InMemoryBroker {
    const config: Config
    var topics: Topics
    const offsets: OffsetStore.MemoryOffsetStore
    const log: LogStore.MemoryLogStore
    const dedupe: DedupeStore.MemoryDedupeStore
    const fanout: FanoutEngine

    ghost predicate Valid()
      reads this, fanout
    {
      fanout.Valid()
    }

    ghost function Abstract(): MemState
      reads this, offsets, log, dedupe, fanout
    {
      State(topics, offsets.inner, log.inner, dedupe.inner, fanout.subs, fanout.lastId)
    }

    constructor (config: Config)
      ensures Valid() && Abstract() == EMPTY && this.config == config
      ensures fresh(offsets) && fresh(log) && fresh(dedupe) && fresh(fanout)
    {
      this.config := config;
      topics := map[];
      offsets := new OffsetStore.MemoryOffsetStore();
      log := new LogStore.MemoryLogStore();
      dedupe := new DedupeStore.MemoryDedupeStore();
      fanout := new FanoutEngine();
    }

    /** `verdicts(i)` is the answer of the i-th sink that the frame reaches. */
    method Publish(frame: Frame, at: Readings, verdicts: nat -> bool) returns (r: Outcome)
      requires Valid()
      modifies this, offsets, log, dedupe
      ensures Valid()
      ensures (Abstract(), r) == PublishStep(config, old(Abstract()), frame, at)
    {
      var invalid := Validate(config, frame, at.validate);
      if invalid.Some? { return Refused(invalid.value); }
      var topic := frame.topic.value;
      if !ValidateName(topic).NameOk? { return Refused(InvalidName); }
      topics := Route(topics, topic);
      var counts := topics[topic];
      if counts.publishers >= config.maxPublishers { return Refused(PublisherLimit); }
      topics := topics[topic := counts.(publishers := counts.publishers + 1)];
      r := Record(topic, frame, at, verdicts);
    }

    /** Deduplicate, allocate, log and fan out. */
    method Record(topic: Topic, frame: Frame, at: Readings, verdicts: nat -> bool) returns (r: Outcome)
      requires Valid() && frame.messageId.Some?
      modifies offsets, log, dedupe
      ensures Valid()
      ensures (Abstract(), r) == Accept(config, old(Abstract()), topic, frame, at)
    {
      var isNew := dedupe.CheckAndRecord(topic, frame.messageId.value, config.window, at.dedupe);
      var offset := offsets.Alloc(topic);
      var entry := EntryFor(frame, offset);
      log.Append(topic, entry, config.retention, at.append);
      var deliveries: seq<Delivery> := [];
      if isNew {
        var buf := SerializeForFanout(frame.payload, offset);
        var ok, reached := fanout.Deliver(topic, verdicts);
        deliveries := seq(|reached|, i requires 0 <= i < |reached| => Delivery(reached[i], buf));
        assert deliveries == Deliveries(fanout.subs, topic, buf);
      }
      r := Published(topic, entry, !isNew, deliveries);
    }

    method Subscribe(topic: Topic, sink: Sink) returns (r: Outcome)
      requires Valid()
      modifies this, fanout
      ensures Valid()
      ensures (Abstract(), r) == SubscribeStep(config, old(Abstract()), topic, sink)
    {
      if !ValidateName(topic).NameOk? { return Refused(InvalidName); }
      topics := Route(topics, topic);
      var counts := topics[topic];
      if counts.subscribers >= config.maxSubscribers {
        return Refused(SubscriberLimit);
      }
      topics := topics[topic := counts.(subscribers := counts.subscribers + 1)];
      var id := fanout.Subscribe(topic, sink);
      r := Subscribed(id);
    }

    method Unsubscribe(id: nat) returns (r: Outcome)
      requires Valid()
      modifies this, fanout
      ensures Valid()
      ensures (Abstract(), r) == UnsubscribeStep(old(Abstract()), id)
    {
      var topic := fanout.Unsubscribe(id);
      if topic.Some? {
        topics := ReleaseSubscriber(topics, topic.value);
      } else {
        FilterAll(old(fanout.subs), NotId(id));
      }
      r := Unsubscribed(topic.Some?);
    }

    method DropSink(sinkId: nat) returns (r: Outcome)
      requires Valid()
      modifies this, fanout
      ensures Valid()
      ensures (Abstract(), r) == DropSinkStep(old(Abstract()), sinkId)
    {
      var freed := fanout.DropSink(sinkId);
      var released := topics;
      for i := 0 to |freed|
        invariant released == ReleaseAll(topics, freed[..i])
      {
        released := ReleaseSubscriber(released, freed[i]);
        assert freed[..i + 1][..i] == freed[..i];
      }
      assert freed[..|freed|] == freed;
      topics := released;
      r := Dropped(|freed|);
    }

    method DecPublisher(topic: Topic)
      modifies this
      ensures Abstract() == DecPublisherStep(old(Abstract()), topic).0
    {
      if topic in topics {
        topics := topics[topic := topics[topic].(publishers := WrappingDec(topics[topic].publishers))];
      }
    }

    method Maintain(now: int) returns (removed: nat)
      modifies dedupe
      ensures (Abstract(), Maintained(removed)) == MaintainStep(old(Abstract()), now)
    {
      removed := dedupe.Sweep(now);
    }

    method HeadOffset(topic: Topic) returns (head: i64)
      ensures head == OffsetStore.MemApply(offsets.inner, OffsetStore.Head(topic)).1
    {
      head := offsets.Head(topic);
    }

    /** The payloads that the log still holds between two offsets, inclusive. */
    method Replay(topic: Topic, from: i64, to: i64) returns (payloads: seq<bytes>)
      ensures payloads == Payloads(Filter(LogStore.LogAt(log.inner, topic), LogStore.InRange(from, to)))
    {
      var entries := log.Range(topic, from, to);
      payloads := Payloads(entries);
    }
  }

  function PayloadOf(): LogEntry -> bytes { (e: LogEntry) => e.payload }

  function Payloads(entries: seq<LogEntry>): (r: seq<bytes>)
    ensures |r| == |entries| && forall i :: 0 <= i < |r| ==> r[i] == entries[i].payload
  {
    Map(entries, PayloadOf())
  }
}
