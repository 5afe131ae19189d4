/**
 The broker wired to the sled stores. Its own checks and counters establish what
 each store refinement needs, so over every run, through any number of restarts,
 it is indistinguishable from the in-memory broker.
 */
module SledBroker {
  import opened Sequences
  import opened Bytes
  import opened Keys
  import opened SledTree
  import opened Retention
  import opened FrameCodec
  import opened Broker
  import opened BrokerRuns
  import OffsetStore
  import LogStore
  import DedupeStore

  type SledState = State<OffsetStore.Sled, LogStore.LogTree, DedupeStore.DedupeTree>

  const EMPTY_SLED: SledState := State(map[], OffsetStore.Sled(map[], []), [], [], [], 0)

  /** Expiries fit the 64 bits that they are stored in. */
  predicate Timely(c: Config, op: Op) {
    op.Publish? ==> -TWO_63 <= op.at.dedupe + c.window < TWO_63
  }

  function SledAccept(c: Config, s: SledState, t: Topic, f: Frame, at: Readings): (SledState, Outcome)
    requires f.messageId.Some? && Timely(c, Publish(f, at))
  {
    var (dedupe, isNew) := DedupeStore.SledCheck(s.dedupe, (t, f.messageId.value), at.dedupe, c.window);
    var (offsets, offset) := OffsetStore.SledApply(s.offsets, OffsetStore.Alloc(t));
    var logs := LogStore.SledAppend(s.logs, t, EntryFor(f, offset), c.retention, at.append);
    (s.(offsets := offsets, logs := logs, dedupe := dedupe), Report(s.subs, t, f, offset, isNew))
  }

  function SledPublishStep(c: Config, s: SledState, f: Frame, at: Readings): (SledState, Outcome)
    requires Timely(c, Publish(f, at))
  {
    match Admit(c, s.topics, f, at.validate)
    case Turned(topics, reason) => (s.(topics := topics), Refused(reason))
    case Admitted(topics, t) => SledAccept(c, s.(topics := topics), t, f, at)
  }

  function SledMaintainStep(s: SledState, now: int): (SledState, Outcome) {
    var (dedupe, removed) := DedupeStore.SledSweep(s.dedupe, now);
    (s.(dedupe := dedupe), Maintained(removed))
  }

  /** A new process over the same trees: the offset cache is loaded again. */
  function SledRestartStep(s: SledState): (SledState, Outcome) {
    RestartStep(s.(offsets := OffsetStore.SledApply(s.offsets, OffsetStore.Restart).0))
  }

  function SledApply(c: Config, s: SledState, op: Op): (SledState, Outcome)
    requires Timely(c, op)
  {
    match op
    case Publish(f, at) => SledPublishStep(c, s, f, at)
    case Subscribe(t, sink) => SubscribeStep(c, s, t, sink)
    case Unsubscribe(id) => UnsubscribeStep(s, id)
    case DropSink(sinkId) => DropSinkStep(s, sinkId)
    case DecPublisher(t) => DecPublisherStep(s, t)
    case Maintain(now) => SledMaintainStep(s, now)
    case Restart => SledRestartStep(s)
  }

  function SledRun(c: Config, ops: seq<Op>): (r: (SledState, seq<Outcome>))
    requires forall i :: 0 <= i < |ops| ==> Timely(c, ops[i])
  {
    if ops == [] then (EMPTY_SLED, [])
    else
      var n := |ops| - 1;
      var (s, outcomes) := SledRun(c, ops[..n]);
      var (s', o) := SledApply(c, s, ops[n]);
      (s', outcomes + [o])
  }

  // ---- What the broker guarantees to its log store -------------------------------------

  ghost predicate Unstamped(log: seq<LogEntry>) {
    forall e :: e in log ==> e.appendedAt == None
  }

  /** A topic's log holds unstamped entries in offset order, all below the next offset. */
  ghost predicate Tidy(m: MemState, t: Topic) {
    var log := LogStore.LogAt(m.logs, t);
    Unstamped(log) && LogStore.Ascending(log, OffsetStore.NextOf(m.offsets, t)) && OffsetStore.NextOf(m.offsets, t) >= 1
  }

  lemma {:induction false} EvictUnstamped(all: seq<LogEntry>, policy: Policy, now: int, clock: Clock)
    requires all != [] && Unstamped(all)
    ensures Unstamped(Evict(all, policy, now, clock))
  {
    if policy.Ttl? {
      FilterMember(all, Alive(now, policy.ms, clock));
    } else if policy.Latest? {
      FilterMember(all, AtOffset(all[|all| - 1].offset));
    } else if policy.Count? || policy.Size? {
      assert IsSuffix(Evict(all, policy, now, clock), all);
    }
  }

  lemma {:induction false} LoggedUnstamped(c: Config, m: MemState, op: Op, t: Topic)
    requires AcceptedOn(Apply(c, m, op).1, op, t)
    ensures Apply(c, m, op).1.entry.appendedAt == None
  {
  }

  lemma {:induction false} LogUnstamped(c: Config, ops: seq<Op>, t: Topic)
    ensures Unstamped(LogStore.LogAt(Run(c, ops).0.logs, t))
  {
    hide Apply;
    if ops != [] {
      var n := |ops| - 1;
      var m := Run(c, ops[..n]).0;
      LogUnstamped(c, ops[..n], t);
      TopicStep(c, m, ops[n], t);
      var o := Apply(c, m, ops[n]).1;
      if AcceptedOn(o, ops[n], t) {
        LoggedUnstamped(c, m, ops[n], t);
        EvictUnstamped(LogStore.LogAt(m.logs, t) + [o.entry], c.retention, ops[n].at.append, Sender);
      }
    }
  }

  /** In every reachable state every topic's log is tidy. */
  lemma {:induction false} LogsStayTidy(c: Config, ops: seq<Op>, t: Topic)
    requires |ops| < TWO_63 - 1
    ensures Tidy(Run(c, ops).0, t)
  {
    LogUnstamped(c, ops, t);
    LogAscends(c, ops, t);
    OffsetsCountPublishes(c, ops, t);
  }

  // ---- Refinement ---------------------------------------------------------------------------

  ghost predicate Remembers(tree: DedupeStore.DedupeTree, m: DedupeStore.Expiries) {
    Sorted(tree) && DedupeStore.WellFormed(tree) && DedupeStore.Recorded(tree) == m
  }

  ghost predicate Matches(s: SledState, m: MemState) {
    && s.topics == m.topics && s.subs == m.subs && s.lastId == m.lastId
    && OffsetStore.Represents(s.offsets, m.offsets)
    && LogStore.Represents(s.logs, m.logs)
    && Remembers(s.dedupe, m.dedupe)
  }

  lemma {:induction false} CheckMatches(tree: DedupeStore.DedupeTree, m: DedupeStore.Expiries,
                                        k: DedupeStore.MessageKey, now: int, window: nat)
    requires Remembers(tree, m) && NulFree(k.0) && -TWO_63 <= now + window < TWO_63
    ensures DedupeStore.SledCheck(tree, k, now, window).1 == DedupeStore.MemCheck(m, k, now, window).1
    ensures Remembers(DedupeStore.SledCheck(tree, k, now, window).0, DedupeStore.MemCheck(m, k, now, window).0)
  {
    DedupeStore.StepRefines(tree, DedupeStore.Check(k, now, window));
  }

  /** The log store may rely on its caller: increasing offsets, and no stamp that would make the clocks differ. */
  lemma {:induction false} AppendIsAllowed(c: Config, m: MemState, t: Topic, f: Frame, now: int)
    requires Tidy(m, t) && NulFree(t) && f.messageId.Some? && !c.retention.Size?
    ensures var entry := EntryFor(f, OffsetStore.NextOf(m.offsets, t));
      LogStore.Allowed(m.logs, LogStore.Append(t, entry, c.retention, now))
  {
  }

  lemma {:induction false} AcceptMatches(c: Config, s: SledState, m: MemState, t: Topic, f: Frame, at: Readings)
    requires Matches(s, m) && Tidy(m, t) && NulFree(t) && !c.retention.Size?
    requires f.messageId.Some? && Timely(c, Publish(f, at))
    ensures SledAccept(c, s, t, f, at).1 == Accept(c, m, t, f, at).1
    ensures Matches(SledAccept(c, s, t, f, at).0, Accept(c, m, t, f, at).0)
  {
    hide OffsetStore.Represents, LogStore.Represents, Remembers, DedupeStore.SledCheck, DedupeStore.MemCheck,
         OffsetStore.SledApply, LogStore.SledAppend, LogStore.MemAppend;
    CheckMatches(s.dedupe, m.dedupe, (t, f.messageId.value), at.dedupe, c.window);
    OffsetStore.StepRefines(s.offsets, m.offsets, OffsetStore.Alloc(t));
    AppendIsAllowed(c, m, t, f, at.append);
    LogStore.AppendRefines(s.logs, m.logs, t, EntryFor(f, OffsetStore.NextOf(m.offsets, t)), c.retention, at.append);
  }

  lemma {:induction false} SweepMatches(s: SledState, m: MemState, now: int)
    requires Matches(s, m)
    ensures SledMaintainStep(s, now).1 == MaintainStep(m, now).1
    ensures Matches(SledMaintainStep(s, now).0, MaintainStep(m, now).0)
  {
    hide OffsetStore.Represents, LogStore.Represents;
    DedupeStore.StepRefines(s.dedupe, DedupeStore.Sweep(now));
  }

  lemma {:induction false} RestartMatches(s: SledState, m: MemState)
    requires Matches(s, m)
    ensures SledRestartStep(s).1 == RestartStep(m).1
    ensures Matches(SledRestartStep(s).0, RestartStep(m).0)
  {
    hide OffsetStore.Represents, OffsetStore.SledApply, LogStore.Represents, Remembers;
    OffsetStore.StepRefines(s.offsets, m.offsets, OffsetStore.Restart);
  }

  /** One call: the same outcome, and the states still match. */
  lemma {:induction false} StepMatches(c: Config, s: SledState, m: MemState, op: Op)
    requires Matches(s, m) && Timely(c, op) && !c.retention.Size?
    requires op.Publish? && op.frame.topic.Some? ==> Tidy(m, op.frame.topic.value)
    ensures SledApply(c, s, op).1 == Apply(c, m, op).1
    ensures Matches(SledApply(c, s, op).0, Apply(c, m, op).0)
  {
    hide OffsetStore.Represents, LogStore.Represents, Remembers, SledAccept, Accept, Admit;
    hide MaintainStep, SledMaintainStep, RestartStep, SledRestartStep;
    if op.Publish? {
      var a := Admit(c, m.topics, op.frame, op.at.validate);
      if a.Admitted? {
        AcceptMatches(c, s.(topics := a.topics), m.(topics := a.topics), a.topic, op.frame, op.at);
      }
    } else if op.Maintain? {
      SweepMatches(s, m, op.now);
    } else if op.Restart? {
      RestartMatches(s, m);
    }
  }

  lemma {:induction false} EmptyMatches()
    ensures Matches(EMPTY_SLED, EMPTY)
  {
    LogStore.EmptyRepresents();
  }

  lemma {:induction false} RunMatches(c: Config, ops: seq<Op>)
    requires !c.retention.Size? && |ops| < TWO_63 - 1
    requires forall i :: 0 <= i < |ops| ==> Timely(c, ops[i])
    ensures SledRun(c, ops).1 == Run(c, ops).1
    ensures Matches(SledRun(c, ops).0, Run(c, ops).0)
  {
    hide OffsetStore.Represents, LogStore.Represents, Remembers, SledApply, Apply, Tidy;
    if ops == [] {
      EmptyMatches();
    } else {
      var n := |ops| - 1;
      RunMatches(c, ops[..n]);
      if ops[n].Publish? && ops[n].frame.topic.Some? {
        LogsStayTidy(c, ops[..n], ops[n].frame.topic.value);
      }
      StepMatches(c, SledRun(c, ops[..n]).0, Run(c, ops[..n]).0, ops[n]);
    }
  }

  // ---- Retention does not show in outcomes ----------------------------------------------

  function With(c: Config, retention: Policy): Config { c.(retention := retention) }

  ghost predicate SameButLogs(m: MemState, m': MemState) {
    m == m'.(logs := m.logs)
  }

  lemma {:induction false} RetentionStep(c: Config, retention: Policy, m: MemState, m': MemState, op: Op)
    requires SameButLogs(m, m')
    ensures Apply(c, m, op).1 == Apply(With(c, retention), m', op).1
    ensures SameButLogs(Apply(c, m, op).0, Apply(With(c, retention), m', op).0)
  {
    hide PublishStep;
    if op.Publish? {
      RetentionPublish(c, retention, m, m', op.frame, op.at);
    }
  }

  lemma {:induction false} RetentionPublish(c: Config, retention: Policy, m: MemState, m': MemState,
                                            f: Frame, at: Readings)
    requires SameButLogs(m, m')
    ensures PublishStep(c, m, f, at).1 == PublishStep(With(c, retention), m', f, at).1
    ensures SameButLogs(PublishStep(c, m, f, at).0, PublishStep(With(c, retention), m', f, at).0)
  {
    hide LogStore.MemAppend, ValidateName, DedupeStore.MemCheck, OffsetStore.MemApply;
  }

  /** Brokers that differ in retention alone differ in their logs alone. */
  lemma {:induction false} RetentionIsInvisible(c: Config, retention: Policy, ops: seq<Op>)
    ensures Run(c, ops).1 == Run(With(c, retention), ops).1
    ensures SameButLogs(Run(c, ops).0, Run(With(c, retention), ops).0)
  {
    hide Apply, With;
    if ops != [] {
      var n := |ops| - 1;
      RetentionIsInvisible(c, retention, ops[..n]);
      RetentionStep(c, retention, Run(c, ops[..n]).0, Run(With(c, retention), ops[..n]).0, ops[n]);
    }
  }

  lemma {:induction false} HistoryIgnoresRetention(c: Config, retention: Policy, ops: seq<Op>, t: Topic)
    ensures History(c, ops, t) == History(With(c, retention), ops, t)
  {
    hide Apply, With, RecordsOf, Run;
    if ops != [] {
      var n := |ops| - 1;
      HistoryIgnoresRetention(c, retention, ops[..n], t);
      RetentionIsInvisible(c, retention, ops[..n]);
      RetentionStep(c, retention, Run(c, ops[..n]).0, Run(With(c, retention), ops[..n]).0, ops[n]);
    }
  }

  // ---- The theorems -----------------------------------------------------------------------

  /** The policy that the sled log store enforces: it has no byte budget. */
  function Enforced(c: Config): Config { With(c, if c.retention.Size? then Durable else c.retention) }

  lemma {:induction false} SledEnforces(c: Config, ops: seq<Op>)
    requires forall i :: 0 <= i < |ops| ==> Timely(c, ops[i])
    ensures SledRun(c, ops) == SledRun(Enforced(c), ops)
  {
    if ops != [] {
      var n := |ops| - 1;
      SledEnforces(c, ops[..n]);
      SledEnforcesStep(c, SledRun(c, ops[..n]).0, ops[n]);
    }
  }

  lemma {:induction false} SledEnforcesStep(c: Config, s: SledState, op: Op)
    requires Timely(c, op)
    ensures SledApply(c, s, op) == SledApply(Enforced(c), s, op)
  {
    hide Filter, ReleaseAll, ValidateName, DedupeStore.SledCheck, OffsetStore.SledApply, Put;
  }

  /**
   Over every run, restarts included, the broker on sled returns exactly the
   outcomes of the broker on memory: offsets, duplicates, deliveries, refusals
   and sweep counts. Its stores hold what memory would hold, except that a byte
   budget is not enforced.
   */
  lemma {:induction false} SledBrokerIsDefaultBroker(c: Config, ops: seq<Op>)
    requires |ops| < TWO_63 - 1
    requires forall i :: 0 <= i < |ops| ==> Timely(c, ops[i])
    ensures SledRun(c, ops).1 == Run(c, ops).1
    ensures Matches(SledRun(c, ops).0, Run(Enforced(c), ops).0)
  {
    hide SledRun, Run, Matches;
    SledEnforces(c, ops);
    RunMatches(Enforced(c), ops);
    RetentionIsInvisible(c, Enforced(c).retention, ops);
  }

  /** The queries between the calls, for head offsets and replays, find what memory would hold. */
  lemma {:induction false} SledQueriesMatch(c: Config, ops: seq<Op>, t: Topic)
    requires |ops| < TWO_63 - 1 && NulFree(t)
    requires forall i :: 0 <= i < |ops| ==> Timely(c, ops[i])
    ensures LogStore.SledLog(SledRun(c, ops).0.logs, t) == LogStore.LogAt(Run(Enforced(c), ops).0.logs, t)
    ensures OffsetStore.SledHead(SledRun(c, ops).0.offsets, t) == |History(c, ops, t)|
  {
    hide SledRun, Run, History, Enforced;
    var s, m := SledRun(c, ops).0, Run(Enforced(c), ops).0;
    SledBrokerIsDefaultBroker(c, ops);
    assert LogStore.Holds(s.logs, t, LogStore.LogAt(m.logs, t));
    LogStore.FiledValues(s.logs, t, LogStore.LogAt(m.logs, t));
    OffsetStore.StepRefines(s.offsets, m.offsets, OffsetStore.Head(t));
    OffsetsCountPublishes(Enforced(c), ops, t);
    EnforcedHistory(c, ops, t);
  }

  lemma {:induction false} EnforcedHistory(c: Config, ops: seq<Op>, t: Topic)
    ensures History(Enforced(c), ops, t) == History(c, ops, t)
  {
    HistoryIgnoresRetention(c, Enforced(c).retention, ops, t);
  }

  /**
   A topic's log on sled is its log on memory exactly when no byte budget has
   been exceeded by all that was ever accepted on it.
   */
  lemma {:induction false} SledLogAgreesExactlyWhen(c: Config, ops: seq<Op>, t: Topic)
    requires |ops| < TWO_63 - 1 && NulFree(t)
    requires forall i :: 0 <= i < |ops| ==> Timely(c, ops[i])
    ensures LogStore.SledLog(SledRun(c, ops).0.logs, t) == LogStore.LogAt(Run(c, ops).0.logs, t) <==>
            (c.retention.Size? ==> TotalBytes(EntriesIn(History(c, ops, t))) <= c.retention.maxBytes)
  {
    hide SledRun, Run, History;
    SledQueriesMatch(c, ops, t);
    if c.retention.Size? {
      EnforcedHistory(c, ops, t);
      DurableLogIsHistory(Enforced(c), ops, t);
      SizeLogIsHistoryExactlyWhen(c, ops, t);
    } else {
      assert Enforced(c) == c;
    }
  }

  lemma {:induction false} SizeLogIsHistoryExactlyWhen(c: Config, ops: seq<Op>, t: Topic)
    requires c.retention.Size?
    ensures LogStore.LogAt(Run(c, ops).0.logs, t) == EntriesIn(History(c, ops, t)) <==>
            TotalBytes(EntriesIn(History(c, ops, t))) <= c.retention.maxBytes
  {
    hide Run, History;
    var all := EntriesIn(History(c, ops, t));
    if History(c, ops, t) == [] {
      LogFollowsHistory(c, ops, t);
    } else {
      LogMeetsPolicy(c, ops, t);
      assert all[0..] == all;
    }
  }
}
