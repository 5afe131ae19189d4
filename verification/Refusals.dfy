/** A refused publish leaves no trace: the rest of the run goes as if it had not been made. */
module Refusals {
  import opened Sequences
  import opened Keys
  import opened FrameCodec
  import opened Fanout
  import opened Broker
  import opened BrokerRuns

  /** `b` is `a`, publisher counts aside, plus topics that nobody subscribes to. */
  ghost predicate Padded(a: Topics, b: Topics) {
    && (forall t :: t in a ==> t in b && b[t].subscribers == a[t].subscribers)
    && (forall t :: t in b && t !in a ==> b[t].subscribers == 0)
  }

  ghost predicate SameStores(s: MemState, s': MemState) {
    s.offsets == s'.offsets && s.logs == s'.logs && s.dedupe == s'.dedupe && s.subs == s'.subs && s.lastId == s'.lastId
  }

  /**
   States that no call can tell apart. A refusal creates a topic entry only if
   the limit is zero, and then no publisher count lets anything through.
   */
  ghost predicate Alike(c: Config, s: MemState, s': MemState) {
    SameStores(s, s') && (s.topics == s'.topics || (c.maxPublishers == 0 && Padded(s.topics, s'.topics)))
  }

  /** Every subscription's topic has an entry. */
  ghost predicate Routed(s: MemState) {
    forall i :: 0 <= i < |s.subs| ==> s.subs[i].topic in s.topics
  }

  lemma {:induction false} ReleaseKeepsKeys(topics: Topics, ts: seq<Topic>)
    ensures ReleaseAll(topics, ts).Keys == topics.Keys
  {
    if ts != [] { ReleaseKeepsKeys(topics, ts[..|ts| - 1]); }
  }

  lemma {:induction false} RoutedFilter(s: MemState, p: Sub -> bool)
    requires Routed(s)
    ensures forall i :: 0 <= i < |Filter(s.subs, p)| ==> Filter(s.subs, p)[i].topic in s.topics
  {
    FilterMember(s.subs, p);
    var r := Filter(s.subs, p);
    forall i | 0 <= i < |r| ensures r[i].topic in s.topics {
      assert r[i] in s.subs;
      var j :| 0 <= j < |s.subs| && s.subs[j] == r[i];
    }
  }

  lemma {:induction false} RoutedStep(c: Config, s: MemState, op: Op)
    requires Routed(s)
    ensures Routed(Apply(c, s, op).0)
  {
    if op.Unsubscribe? {
      RoutedFilter(s, NotId(op.id));
    } else if op.DropSink? {
      RoutedFilter(s, NotOfSink(op.sinkId));
      ReleaseKeepsKeys(s.topics, Map(Filter(s.subs, OfSink(op.sinkId)), TopicOf()));
    }
  }

  lemma {:induction false} RoutedAlways(c: Config, ops: seq<Op>)
    ensures Routed(Run(c, ops).0)
  {
    hide Apply;
    if ops != [] {
      var n := |ops| - 1;
      RoutedAlways(c, ops[..n]);
      RoutedStep(c, Run(c, ops[..n]).0, ops[n]);
    }
  }

  lemma {:induction false} ReleasePadded(a: Topics, b: Topics, ts: seq<Topic>)
    requires Padded(a, b) && forall i :: 0 <= i < |ts| ==> ts[i] in a
    ensures Padded(ReleaseAll(a, ts), ReleaseAll(b, ts))
  {
    if ts != [] {
      var n := |ts| - 1;
      ReleasePadded(a, b, ts[..n]);
      ReleaseKeepsKeys(a, ts[..n]);
      ReleaseKeepsKeys(b, ts[..n]);
      assert ts[n] in ReleaseAll(a, ts[..n]) && ts[n] in ReleaseAll(b, ts[..n]);
    }
  }

  lemma {:induction false} UnsubscribeAlike(s: MemState, s': MemState, id: nat)
    requires SameStores(s, s') && Padded(s.topics, s'.topics) && Routed(s)
    ensures UnsubscribeStep(s, id).1 == UnsubscribeStep(s', id).1
    ensures SameStores(UnsubscribeStep(s, id).0, UnsubscribeStep(s', id).0)
    ensures Padded(UnsubscribeStep(s, id).0.topics, UnsubscribeStep(s', id).0.topics)
  {
    var found := Find(s.subs, id);
    if found.Some? {
      var j :| 0 <= j < |s.subs| && s.subs[j] == found.value;
    }
  }

  lemma {:induction false} DropAlike(s: MemState, s': MemState, sinkId: nat)
    requires SameStores(s, s') && Padded(s.topics, s'.topics) && Routed(s)
    ensures DropSinkStep(s, sinkId).1 == DropSinkStep(s', sinkId).1
    ensures SameStores(DropSinkStep(s, sinkId).0, DropSinkStep(s', sinkId).0)
    ensures Padded(DropSinkStep(s, sinkId).0.topics, DropSinkStep(s', sinkId).0.topics)
  {
    hide Filter;
    RoutedFilter(s, OfSink(sinkId));
    ReleasePadded(s.topics, s'.topics, Map(Filter(s.subs, OfSink(sinkId)), TopicOf()));
  }

  lemma {:induction false} PublishAlike(c: Config, s: MemState, s': MemState, f: Frame, at: Readings)
    requires SameStores(s, s') && Padded(s.topics, s'.topics) && c.maxPublishers == 0
    ensures PublishStep(c, s, f, at).1 == PublishStep(c, s', f, at).1
    ensures SameStores(PublishStep(c, s, f, at).0, PublishStep(c, s', f, at).0)
    ensures Padded(PublishStep(c, s, f, at).0.topics, PublishStep(c, s', f, at).0.topics)
  {
    hide Accept, ValidateName;
  }

  lemma {:induction false} SubscribeAlike(c: Config, s: MemState, s': MemState, t: Topic, sink: Sink)
    requires SameStores(s, s') && Padded(s.topics, s'.topics)
    ensures SubscribeStep(c, s, t, sink).1 == SubscribeStep(c, s', t, sink).1
    ensures SameStores(SubscribeStep(c, s, t, sink).0, SubscribeStep(c, s', t, sink).0)
    ensures Padded(SubscribeStep(c, s, t, sink).0.topics, SubscribeStep(c, s', t, sink).0.topics)
  {
    hide ValidateName;
  }

  /** One call: alike states answer alike and stay alike. */
  lemma {:induction false} StepAlike(c: Config, s: MemState, s': MemState, op: Op)
    requires Alike(c, s, s') && Routed(s)
    ensures Apply(c, s, op).1 == Apply(c, s', op).1
    ensures Alike(c, Apply(c, s, op).0, Apply(c, s', op).0)
  {
    hide PublishStep, SubscribeStep, UnsubscribeStep, DropSinkStep;
    if s.topics == s'.topics {
      assert s == s';
    } else if op.Publish? {
      PublishAlike(c, s, s', op.frame, op.at);
    } else if op.Subscribe? {
      SubscribeAlike(c, s, s', op.topic, op.sink);
    } else if op.Unsubscribe? {
      UnsubscribeAlike(s, s', op.id);
    } else if op.DropSink? {
      DropAlike(s, s', op.sinkId);
    }
  }

  lemma {:induction false} RefusalAlike(c: Config, s: MemState, f: Frame, at: Readings)
    requires PublishStep(c, s, f, at).1.Refused?
    ensures Alike(c, s, PublishStep(c, s, f, at).0)
  {
  }

  lemma {:induction false} SuffixAlike(c: Config, a: seq<Op>, op: Op, b: seq<Op>)
    requires Alike(c, Run(c, a).0, Run(c, a + [op]).0)
    ensures Run(c, a + [op] + b).1 == Run(c, a + [op]).1 + Run(c, a + b).1[|a|..]
    ensures Alike(c, Run(c, a + b).0, Run(c, a + [op] + b).0)
  {
    hide Apply, Alike;
    if b == [] {
      assert a + b == a && a + [op] + b == a + [op];
    } else {
      var n := |b| - 1;
      SuffixAlike(c, a, op, b[..n]);
      assert a + b == (a + b[..n]) + [b[n]];
      assert a + [op] + b == (a + [op] + b[..n]) + [b[n]];
      RunSnoc(c, a + b[..n], b[n]);
      RunSnoc(c, a + [op] + b[..n], b[n]);
      RoutedAlways(c, a + b[..n]);
      StepAlike(c, Run(c, a + b[..n]).0, Run(c, a + [op] + b[..n]).0, b[n]);
    }
  }

  /**
   Whatever a run does after a refused publish, it gets the outcomes, and ends
   with the offsets, logs, dedupe records and subscriptions, that it would have
   had without it.
   */
  lemma {:induction false} RefusedPublishIsInvisible(c: Config, a: seq<Op>, f: Frame, at: Readings, b: seq<Op>)
    requires PublishStep(c, Run(c, a).0, f, at).1.Refused?
    ensures Run(c, a + [Publish(f, at)] + b).1[|a| + 1..] == Run(c, a + b).1[|a|..]
    ensures SameStores(Run(c, a + b).0, Run(c, a + [Publish(f, at)] + b).0)
  {
    hide PublishStep;
    RefusalAlike(c, Run(c, a).0, f, at);
    RunSnoc(c, a, Publish(f, at));
    SuffixAlike(c, a, Publish(f, at), b);
  }

  /**
   What a publish answers, whatever the stores hold: the first check that it
   fails, or acceptance. A frame without a ttl or without a timestamp does not
   expire.
   */
  lemma {:induction false} AcceptedExactlyWhen(c: Config, s: MemState, f: Frame, at: Readings)
    ensures var o, size := PublishStep(c, s, f, at).1, |f.payload.GetOr([])|;
      if f.topic == None then o == Refused(MissingTopic)
      else if f.messageId == None then o == Refused(MissingMessageId)
      else if size > c.maxPayload then o == Refused(TooLarge(size, c.maxPayload))
      else if f.ttlMs.Some? && f.timestamp > 0 && at.validate > f.timestamp + f.ttlMs.value then
        o == Refused(FrameExpired)
      else if !ValidName(f.topic.value) then o == Refused(InvalidName)
      else if f.topic.value in s.topics && s.topics[f.topic.value].publishers >= c.maxPublishers then
        o == Refused(PublisherLimit)
      else if f.topic.value !in s.topics && c.maxPublishers == 0 then o == Refused(PublisherLimit)
      else o.Published? && Some(o.topic) == f.topic
  {
    hide ValidateName, ValidName, Accept;
    if f.topic.Some? { NameOkExactlyWhen(f.topic.value); ShortNames(f.topic.value); }
    if f.topic.Some? && f.messageId.Some? { AcceptReports(c, s, f.topic.value, f, at); }
  }

  lemma {:induction false} ShortNames(name: Topic)
    ensures ValidName(name) ==> 0 < |name| <= 256 && name[0] != '$' as int
  {
  }

  lemma {:induction false} AcceptReports(c: Config, s: MemState, t: Topic, f: Frame, at: Readings)
    requires f.messageId.Some?
    ensures forall topics :: var o := Accept(c, s.(topics := topics), t, f, at).1; o.Published? && o.topic == t
  {
  }
}
