/**
 What the broker promises over whole runs: offsets and logs, the dedupe window,
 and the stream that a subscriber sees.
 */
module BrokerRuns {
  import opened Sequences
  import opened Bytes
  import opened Keys
  import opened Retention
  import opened FrameCodec
  import opened Fanout
  import opened Broker
  import OffsetStore
  import LogStore
  import DedupeStore

  /** The state after a run from the empty broker, and the outcome of every call. */
  function Run(c: Config, ops: seq<Op>): (r: (MemState, seq<Outcome>))
    ensures |r.1| == |ops|
  {
    if ops == [] then (EMPTY, [])
    else
      var n := |ops| - 1;
      var (s, outcomes) := Run(c, ops[..n]);
      var (s', o) := Apply(c, s, ops[n]);
      (s', outcomes + [o])
  }

  lemma {:induction false} RunSnoc(c: Config, ops: seq<Op>, op: Op)
    ensures var (s, o) := Apply(c, Run(c, ops).0, op);
      Run(c, ops + [op]) == (s, Run(c, ops).1 + [o])
  {
    hide Apply;
    assert (ops + [op])[..|ops|] == ops;
  }

  /** The outcome of a call depends on the calls before it alone. */
  lemma {:induction false} OutcomeAt(c: Config, ops: seq<Op>, i: nat)
    requires i < |ops|
    ensures Run(c, ops).1[i] == Apply(c, Run(c, ops[..i]).0, ops[i]).1
  {
    hide Apply;
    var n := |ops| - 1;
    if i < n {
      OutcomeAt(c, ops[..n], i);
      assert ops[..n][..i] == ops[..i];
    }
  }

  // ---- Offsets and logs ------------------------------------------------------------------

  /** An accepted publish, and the clock reading of its append. */
  datatype Record = Record(entry: LogEntry, duplicate: bool, now: int)

  predicate AcceptedOn(o: Outcome, op: Op, t: Topic) {
    op.Publish? && o.Published? && o.topic == t
  }

  /** What one call adds to the history of a topic. */
  function RecordsOf(o: Outcome, op: Op, t: Topic): (r: seq<Record>)
    ensures |r| <= 1
  {
    if AcceptedOn(o, op, t) then [Record(o.entry, o.duplicate, op.at.append)] else []
  }

  /** The publishes that were accepted on a topic, in order, duplicates included. */
  function History(c: Config, ops: seq<Op>, t: Topic): (h: seq<Record>)
    ensures |h| <= |ops|
  {
    if ops == [] then []
    else
      var n := |ops| - 1;
      History(c, ops[..n], t) + RecordsOf(Apply(c, Run(c, ops[..n]).0, ops[n]).1, ops[n], t)
  }

  function AsAppended(): Record -> Appended { (r: Record) => Appended(r.entry, r.now) }
  function EntryOfRecord(): Record -> LogEntry { (r: Record) => r.entry }

  function AppendsOf(h: seq<Record>): seq<Appended> { Map(h, AsAppended()) }
  function EntriesIn(h: seq<Record>): seq<LogEntry> { Map(h, EntryOfRecord()) }

  /** One call, as one topic's counter and log see it. */
  lemma {:induction false} TopicStep(c: Config, s: MemState, op: Op, t: Topic)
    ensures var (s', o) := Apply(c, s, op);
      if AcceptedOn(o, op, t) then
        && o.entry.offset == OffsetStore.NextOf(s.offsets, t)
        && OffsetStore.NextOf(s'.offsets, t) == Succ(o.entry.offset)
        && LogStore.LogAt(s'.logs, t) ==
           Evict(LogStore.LogAt(s.logs, t) + [o.entry], c.retention, op.at.append, Sender)
      else
        && OffsetStore.NextOf(s'.offsets, t) == OffsetStore.NextOf(s.offsets, t)
        && LogStore.LogAt(s'.logs, t) == LogStore.LogAt(s.logs, t)
  {
  }

  /**
   Accepted publishes on a topic, duplicates included, get the offsets 1, 2, 3,
   ..., and the head is their number, until 2^63 - 1 calls have been made.
   */
  lemma {:induction false} OffsetsCountPublishes(c: Config, ops: seq<Op>, t: Topic)
    requires |ops| < TWO_63 - 1
    ensures var h := History(c, ops, t);
      && (forall i :: 0 <= i < |h| ==> h[i].entry.offset == i + 1)
      && OffsetStore.NextOf(Run(c, ops).0.offsets, t) == |h| + 1
      && OffsetStore.MemApply(Run(c, ops).0.offsets, OffsetStore.Head(t)).1 == |h|
  {
    hide Apply;
    if ops != [] {
      var n := |ops| - 1;
      OffsetsCountPublishes(c, ops[..n], t);
      TopicStep(c, Run(c, ops[..n]).0, ops[n], t);
    }
  }

  lemma {:induction false} OnlineSnoc(h: seq<Record>, r: Record, policy: Policy)
    ensures Online(AppendsOf(h + [r]), policy, Sender) ==
            Evict(Online(AppendsOf(h), policy, Sender) + [r.entry], policy, r.now, Sender)
  {
    var a := AppendsOf(h + [r]);
    assert a[..|h|] == AppendsOf(h);
  }

  lemma {:induction false} LogStep(c: Config, s: MemState, op: Op, t: Topic, h: seq<Record>)
    requires LogStore.LogAt(s.logs, t) == Online(AppendsOf(h), c.retention, Sender)
    ensures var (s', o) := Apply(c, s, op);
      LogStore.LogAt(s'.logs, t) == Online(AppendsOf(h + RecordsOf(o, op, t)), c.retention, Sender)
  {
    hide Apply;
    TopicStep(c, s, op, t);
    var o := Apply(c, s, op).1;
    if AcceptedOn(o, op, t) {
      OnlineSnoc(h, Record(o.entry, o.duplicate, op.at.append), c.retention);
    } else {
      assert h + [] == h;
    }
  }

  /** The log of a topic is its publish history, evicted append by append. */
  lemma {:induction false} LogFollowsHistory(c: Config, ops: seq<Op>, t: Topic)
    ensures LogStore.LogAt(Run(c, ops).0.logs, t) == Online(AppendsOf(History(c, ops, t)), c.retention, Sender)
  {
    hide Apply, RecordsOf;
    if ops != [] {
      var n := |ops| - 1;
      LogFollowsHistory(c, ops[..n], t);
      LogStep(c, Run(c, ops[..n]).0, ops[n], t, History(c, ops[..n], t));
    }
  }

  /** At any time the log of a topic is what its policy keeps of everything ever accepted on it. */
  lemma {:induction false} LogMeetsPolicy(c: Config, ops: seq<Op>, t: Topic)
    requires History(c, ops, t) != []
    requires c.retention.Ttl? ==> MonotoneClock(AppendsOf(History(c, ops, t)))
    ensures var h := History(c, ops, t);
      MeetsPolicy(LogStore.LogAt(Run(c, ops).0.logs, t), EntriesIn(h), c.retention, h[|h| - 1].now, Sender)
  {
    hide Run, History, MeetsPolicy;
    var h := History(c, ops, t);
    LogFollowsHistory(c, ops, t);
    OnlineIsOffline(AppendsOf(h), c.retention, Sender);
    assert EntriesOf(AppendsOf(h)) == EntriesIn(h);
  }

  lemma {:induction false} AscendStep(c: Config, s: MemState, op: Op, t: Topic, next: nat)
    requires OffsetStore.NextOf(s.offsets, t) == next && LogStore.Ascending(LogStore.LogAt(s.logs, t), next)
    ensures var (s', o) := Apply(c, s, op);
      LogStore.Ascending(LogStore.LogAt(s'.logs, t), next + |RecordsOf(o, op, t)|)
  {
    hide Apply;
    TopicStep(c, s, op, t);
    var log, o := LogStore.LogAt(s.logs, t), Apply(c, s, op).1;
    if AcceptedOn(o, op, t) {
      assert (log + [o.entry])[..|log|] == log;
      LogStore.EvictAscending(log + [o.entry], next + 1, c.retention, op.at.append, Sender);
    }
  }

  /** Offsets increase along a log and do not exceed the head. */
  lemma {:induction false} LogAscends(c: Config, ops: seq<Op>, t: Topic)
    requires |ops| < TWO_63 - 1
    ensures LogStore.Ascending(LogStore.LogAt(Run(c, ops).0.logs, t), |History(c, ops, t)| + 1)
  {
    hide Apply, RecordsOf;
    if ops != [] {
      var n := |ops| - 1;
      LogAscends(c, ops[..n], t);
      OffsetsCountPublishes(c, ops[..n], t);
      AscendStep(c, Run(c, ops[..n]).0, ops[n], t, |History(c, ops[..n], t)| + 1);
    }
  }

  // ---- The dedupe window -------------------------------------------------------------------

  /** Call `i` fanned out message `id` on topic `t`. */
  ghost predicate FansOut(c: Config, ops: seq<Op>, i: nat, t: Topic, id: bytes)
    requires i < |ops|
  {
    var o := Run(c, ops).1[i];
    AcceptedOn(o, ops[i], t) && o.entry.messageId == id && !o.duplicate
  }

  /** Whether it did depends on the calls before it alone. */
  lemma {:induction false} FansOutInPrefix(c: Config, ops: seq<Op>, i: nat, n: nat, t: Topic, id: bytes)
    requires i < n <= |ops|
    ensures FansOut(c, ops[..n], i, t, id) == FansOut(c, ops, i, t, id)
  {
    hide Apply, Run;
    OutcomeAt(c, ops, i);
    OutcomeAt(c, ops[..n], i);
    assert ops[..n][..i] == ops[..i];
  }

  /** Sweeps do not run ahead of the clock that later publishes read. */
  ghost predicate SweepsKeepTime(ops: seq<Op>) {
    forall m, k :: 0 <= m < k < |ops| && ops[m].Maintain? && ops[k].Publish? ==> ops[m].now <= ops[k].at.dedupe
  }

  ghost predicate SweptPast(ops: seq<Op>, due: int) {
    exists m :: 0 <= m < |ops| && ops[m].Maintain? && ops[m].now >= due
  }

  /** The message is on record until `due` at least, or a sweep saw the clock pass `due`. */
  ghost predicate HeldUntil(c: Config, ops: seq<Op>, k: DedupeStore.MessageKey, due: int) {
    var m := Run(c, ops).0.dedupe;
    (k in m && m[k] >= due) || SweptPast(ops, due)
  }

  /** One call, as one message's dedupe record sees it. */
  lemma {:induction false} MessageStep(c: Config, s: MemState, op: Op, t: Topic, id: bytes)
    ensures var (s', o) := Apply(c, s, op);
      var cell, cell' := DedupeStore.CellOf(s.dedupe, (t, id)), DedupeStore.CellOf(s'.dedupe, (t, id));
      if AcceptedOn(o, op, t) && o.entry.messageId == id then
        (Some(DedupeStore.CheckCell(cell, op.at.dedupe, c.window).0), !o.duplicate) ==
        (cell', DedupeStore.CheckCell(cell, op.at.dedupe, c.window).1)
      else if op.Maintain? && cell.Some? && cell.value <= op.now then cell' == None
      else cell' == cell
  {
  }

  lemma {:induction false} StaysHeld(c: Config, ops: seq<Op>, op: Op, t: Topic, id: bytes, due: int)
    requires HeldUntil(c, ops, (t, id), due) && SweepsKeepTime(ops + [op])
    ensures HeldUntil(c, ops + [op], (t, id), due)
    ensures var (s', o) := Apply(c, Run(c, ops).0, op);
      AcceptedOn(o, op, t) && o.entry.messageId == id && !o.duplicate ==> op.at.dedupe >= due
  {
    hide Apply;
    var all := ops + [op];
    RunSnoc(c, ops, op);
    MessageStep(c, Run(c, ops).0, op, t, id);
    assert all[|ops|] == op;
    if SweptPast(ops, due) {
      var m :| 0 <= m < |ops| && ops[m].Maintain? && ops[m].now >= due;
      assert all[m] == ops[m];
    }
  }

  lemma {:induction false} HeldAfterFanout(c: Config, ops: seq<Op>, i: nat, t: Topic, id: bytes)
    requires i < |ops| && FansOut(c, ops, i, t, id) && SweepsKeepTime(ops)
    ensures HeldUntil(c, ops, (t, id), ops[i].at.dedupe + c.window)
  {
    hide Apply;
    var n := |ops| - 1;
    assert ops == ops[..n] + [ops[n]];
    if i == n {
      RunSnoc(c, ops[..n], ops[n]);
      MessageStep(c, Run(c, ops[..n]).0, ops[n], t, id);
    } else {
      FansOutInPrefix(c, ops, i, n, t, id);
      HeldAfterFanout(c, ops[..n], i, t, id);
      StaysHeld(c, ops[..n], ops[n], t, id, ops[i].at.dedupe + c.window);
    }
  }

  /** Two fan-outs of one message on one topic are at least the dedupe window apart. */
  lemma {:induction false} FanoutsAreSpaced(c: Config, ops: seq<Op>, i: nat, j: nat, t: Topic, id: bytes)
    requires i < j < |ops| && SweepsKeepTime(ops)
    requires FansOut(c, ops, i, t, id) && FansOut(c, ops, j, t, id)
    ensures ops[j].at.dedupe - ops[i].at.dedupe >= c.window
  {
    hide Apply;
    assert ops[..j + 1] == ops[..j] + [ops[j]];
    FansOutInPrefix(c, ops, i, j, t, id);
    OutcomeAt(c, ops, j);
    HeldAfterFanout(c, ops[..j], i, t, id);
    StaysHeld(c, ops[..j], ops[j], t, id, ops[i].at.dedupe + c.window);
  }

  /** Every dedupe record was written by a fan-out, and lasts for its window. */
  ghost predicate WrittenBy(c: Config, ops: seq<Op>, i: nat, t: Topic, id: bytes, expires: int) {
    i < |ops| && FansOut(c, ops, i, t, id) && expires == ops[i].at.dedupe + c.window
  }

  lemma {:induction false} RecordHasFanout(c: Config, ops: seq<Op>, t: Topic, id: bytes) returns (i: nat)
    requires (t, id) in Run(c, ops).0.dedupe
    ensures WrittenBy(c, ops, i, t, id, Run(c, ops).0.dedupe[(t, id)])
  {
    hide Apply;
    var n := |ops| - 1;
    var s := Run(c, ops[..n]).0;
    MessageStep(c, s, ops[n], t, id);
    var o := Apply(c, s, ops[n]).1;
    if AcceptedOn(o, ops[n], t) && o.entry.messageId == id && !o.duplicate {
      i := n;
    } else {
      i := RecordHasFanout(c, ops[..n], t, id);
      FansOutInPrefix(c, ops, i, n, t, id);
    }
  }

  /**
   An accepted publish is taken for a duplicate exactly when the same message
   was fanned out on the same topic less than the dedupe window before it.
   */
  lemma {:induction false} DuplicateExactlyWhen(c: Config, ops: seq<Op>, j: nat, t: Topic, id: bytes)
    requires j < |ops| && SweepsKeepTime(ops)
    requires AcceptedOn(Run(c, ops).1[j], ops[j], t) && Run(c, ops).1[j].entry.messageId == id
    ensures Run(c, ops).1[j].duplicate <==>
            exists i :: 0 <= i < j && FansOut(c, ops, i, t, id) && ops[j].at.dedupe < ops[i].at.dedupe + c.window
  {
    hide Apply, Run;
    var o, s := Run(c, ops).1[j], Run(c, ops[..j]).0;
    OutcomeAt(c, ops, j);
    MessageStep(c, s, ops[j], t, id);
    if o.duplicate {
      var i := RecordHasFanout(c, ops[..j], t, id);
      FansOutInPrefix(c, ops, i, j, t, id);
    } else {
      forall i | 0 <= i < j && FansOut(c, ops, i, t, id) ensures ops[j].at.dedupe >= ops[i].at.dedupe + c.window {
        FanoutsAreSpaced(c, ops, i, j, t, id);
      }
    }
  }

  // ---- The live stream ------------------------------------------------------------------------

  function WithSink(sink: Sink): Sub -> bool { (s: Sub) => s.sink == sink }
  function To(sink: Sink): Delivery -> bool { (d: Delivery) => d.sink == sink }
  function BufOf(): Delivery -> bytes { (d: Delivery) => d.buf }

  /** The frames that one call hands to a sink. */
  function Handed(o: Outcome, sink: Sink): seq<bytes> {
    if o.Published? then Map(Filter(o.deliveries, To(sink)), BufOf()) else []
  }

  /** The frames that a sink receives from the calls of `ops` after the first `from`. */
  function Received(c: Config, ops: seq<Op>, from: nat, sink: Sink): seq<bytes> {
    if |ops| <= from then []
    else
      var n := |ops| - 1;
      Received(c, ops[..n], from, sink) + Handed(Apply(c, Run(c, ops[..n]).0, ops[n]).1, sink)
  }

  function IsFresh(): Record -> bool { (r: Record) => !r.duplicate }
  function Framed(): Record -> bytes { (r: Record) => SerializeForFanout(Some(r.entry.payload), r.entry.offset) }
  function PairOfRecord(): Record -> Option<(i64, bytes)> { (r: Record) => Some((r.entry.offset, r.entry.payload)) }
  function Parsed(): bytes -> Option<(i64, bytes)> { (b: bytes) => ParseFanout(b) }

  /** `sink` has one subscription, `sub`, and no other. */
  ghost predicate OnlySub(s: MemState, sub: Sub) {
    Filter(s.subs, WithSink(sub.sink)) == [sub]
  }

  /** The call does not touch the subscriptions of the sink. */
  predicate Spares(op: Op, sub: Sub) {
    match op
    case Subscribe(_, sink) => sink != sub.sink
    case Unsubscribe(id) => id != sub.id
    case DropSink(sinkId) => sinkId != sub.sink.id
    case Restart => false
    case _ => true
  }

  lemma {:induction false} OnlySubStays(c: Config, s: MemState, op: Op, sub: Sub)
    requires OnlySub(s, sub) && Spares(op, sub)
    ensures OnlySub(Apply(c, s, op).0, sub)
  {
    var p, s' := WithSink(sub.sink), Apply(c, s, op).0;
    if op.Subscribe? {
      if s'.subs != s.subs {
        FilterAppend(s.subs, [Sub(s.lastId + 1, op.topic, op.sink)], p);
      }
    } else if op.Unsubscribe? {
      FilterCommutes(s.subs, NotId(op.id), p);
      assert Filter([sub], NotId(op.id)) == [sub];
    } else if op.DropSink? {
      FilterCommutes(s.subs, NotOfSink(op.sinkId), p);
      assert Filter([sub], NotOfSink(op.sinkId)) == [sub];
    }
  }

  /** A fan-out reaches the sink exactly when it is on the topic of its one subscription. */
  lemma {:induction false} OneDelivery(subs: seq<Sub>, sub: Sub, t: Topic, buf: bytes)
    requires Filter(subs, WithSink(sub.sink)) == [sub]
    ensures Map(Filter(Deliveries(subs, t, buf), To(sub.sink)), BufOf()) == if t == sub.topic then [buf] else []
  {
    FilterMap(Filter(subs, OnTopic(t)), SendTo(buf), To(sub.sink), WithSink(sub.sink));
    FilterCommutes(subs, OnTopic(t), WithSink(sub.sink));
    assert Filter([sub], OnTopic(t)) == if t == sub.topic then [sub] else [];
  }

  /** A call hands the sink the frames of the fresh records that it adds to the topic's history. */
  lemma {:induction false} HandedIs(c: Config, s: MemState, op: Op, sub: Sub)
    requires OnlySub(s, sub)
    ensures var o := Apply(c, s, op).1;
      Handed(o, sub.sink) == Map(Filter(RecordsOf(o, op, sub.topic), IsFresh()), Framed())
  {
    var o := Apply(c, s, op).1;
    if op.Publish? && o.Published? && !o.duplicate {
      OneDelivery(s.subs, sub, o.topic, SerializeForFanout(op.frame.payload, o.entry.offset));
    }
  }

  /** What the topic accepted after the first `from` calls. */
  function Since(c: Config, ops: seq<Op>, from: nat, t: Topic): seq<Record>
    requires from <= |ops|
  {
    if |ops| == from then []
    else
      var n := |ops| - 1;
      Since(c, ops[..n], from, t) + RecordsOf(Apply(c, Run(c, ops[..n]).0, ops[n]).1, ops[n], t)
  }

  lemma {:induction false} HistorySplits(c: Config, ops: seq<Op>, from: nat, t: Topic)
    requires from <= |ops|
    ensures History(c, ops, t) == History(c, ops[..from], t) + Since(c, ops, from, t)
  {
    hide Apply, RecordsOf, Run;
    var n := |ops| - 1;
    if from <= n {
      HistorySplits(c, ops[..n], from, t);
      assert ops[..n][..from] == ops[..from];
    } else {
      assert ops[..from] == ops;
    }
  }

  /** The sink holds `sub` alone after `from` calls, and no later call touches that. */
  ghost predicate Listens(c: Config, ops: seq<Op>, from: nat, sub: Sub) {
    && from <= |ops|
    && OnlySub(Run(c, ops[..from]).0, sub)
    && forall i :: from <= i < |ops| ==> Spares(ops[i], sub)
  }

  lemma {:induction false} ReceivedIsFresh(c: Config, ops: seq<Op>, from: nat, sub: Sub)
    requires Listens(c, ops, from, sub)
    ensures Received(c, ops, from, sub.sink) == Map(Filter(Since(c, ops, from, sub.topic), IsFresh()), Framed())
    ensures OnlySub(Run(c, ops).0, sub)
  {
    hide Apply, RecordsOf, Handed, Filter, Framed, IsFresh;
    var n := |ops| - 1;
    if from <= n {
      assert ops[..n][..from] == ops[..from];
      var s := Run(c, ops[..n]).0;
      ReceivedIsFresh(c, ops[..n], from, sub);
      OnlySubStays(c, s, ops[n], sub);
      HandedIs(c, s, ops[n], sub);
      FramesAppend(Since(c, ops[..n], from, sub.topic), RecordsOf(Apply(c, s, ops[n]).1, ops[n], sub.topic));
    } else {
      assert ops[..from] == ops;
    }
  }

  lemma {:induction false} FramesAppend(a: seq<Record>, b: seq<Record>)
    ensures Map(Filter(a + b, IsFresh()), Framed()) ==
            Map(Filter(a, IsFresh()), Framed()) + Map(Filter(b, IsFresh()), Framed())
  {
    FilterAppend(a, b, IsFresh());
  }

  /**
   A sink with one subscription decodes from its frames exactly the offsets and
   payloads of what its topic accepted since it subscribed, duplicates left out,
   in log order.
   */
  lemma {:induction false} LiveStreamIsHistory(c: Config, ops: seq<Op>, from: nat, sub: Sub)
    requires Listens(c, ops, from, sub)
    ensures Map(Received(c, ops, from, sub.sink), Parsed()) ==
            Map(Filter(Since(c, ops, from, sub.topic), IsFresh()), PairOfRecord())
  {
    ReceivedIsFresh(c, ops, from, sub);
    var live := Filter(Since(c, ops, from, sub.topic), IsFresh());
    forall i | 0 <= i < |live| ensures Parsed()(Framed()(live[i])) == PairOfRecord()(live[i]) {
      FanoutRoundTrip(Some(live[i].entry.payload), live[i].entry.offset);
    }
  }

  ghost predicate OffsetsIncrease(h: seq<Record>, bound: int) {
    h != [] ==>
      var r := h[|h| - 1];
      r.entry.offset < bound && OffsetsIncrease(h[..|h| - 1], r.entry.offset)
  }

  lemma {:induction false} IncreaseStep(h: seq<Record>, more: seq<Record>, head: nat)
    requires OffsetsIncrease(Filter(h, IsFresh()), head + 1)
    requires |more| <= 1 && (more != [] ==> more[0].entry.offset == head + 1)
    ensures OffsetsIncrease(Filter(h + more, IsFresh()), head + |more| + 1)
  {
    var live := Filter(h, IsFresh());
    FilterAppend(h, more, IsFresh());
    if more != [] && !more[0].duplicate {
      assert Filter(more, IsFresh()) == more;
      assert (live + more)[..|live|] == live;
    } else {
      assert Filter(more, IsFresh()) == [];
      assert live + [] == live;
    }
  }

  lemma {:induction false} NextRecord(c: Config, s: MemState, op: Op, t: Topic, head: nat)
    requires OffsetStore.NextOf(s.offsets, t) == head + 1
    ensures var more := RecordsOf(Apply(c, s, op).1, op, t);
      more != [] ==> more[0].entry.offset == head + 1
  {
    hide Apply;
    TopicStep(c, s, op, t);
  }

  /** The offsets that the sink sees strictly increase. */
  lemma {:induction false} LiveOffsetsIncrease(c: Config, ops: seq<Op>, from: nat, t: Topic)
    requires from <= |ops| < TWO_63 - 1
    ensures OffsetsIncrease(Filter(Since(c, ops, from, t), IsFresh()), |History(c, ops, t)| + 1)
  {
    hide Apply, IsFresh, OffsetsIncrease, Filter, RecordsOf;
    var n := |ops| - 1;
    if from <= n {
      LiveOffsetsIncrease(c, ops[..n], from, t);
      OffsetsCountPublishes(c, ops[..n], t);
      var s := Run(c, ops[..n]).0;
      NextRecord(c, s, ops[n], t, |History(c, ops[..n], t)|);
      IncreaseStep(Since(c, ops[..n], from, t), RecordsOf(Apply(c, s, ops[n]).1, ops[n], t), |History(c, ops[..n], t)|);
    } else {
      NothingIncreases(|History(c, ops, t)| + 1);
    }
  }

  lemma {:induction false} NothingIncreases(bound: int)
    ensures OffsetsIncrease(Filter([], IsFresh()), bound)
  {
  }

  /** Under Durable the log grew by exactly the records that the stream is drawn from. */
  lemma {:induction false} DurableLogGrows(c: Config, ops: seq<Op>, from: nat, t: Topic)
    requires from <= |ops| && c.retention.Durable?
    ensures LogStore.LogAt(Run(c, ops).0.logs, t) ==
            LogStore.LogAt(Run(c, ops[..from]).0.logs, t) + EntriesIn(Since(c, ops, from, t))
  {
    hide Apply, Run, History, Since;
    HistorySplits(c, ops, from, t);
    DurableLogIsHistory(c, ops, t);
    DurableLogIsHistory(c, ops[..from], t);
    var a, b := History(c, ops[..from], t), Since(c, ops, from, t);
    assert EntriesIn(a + b) == EntriesIn(a) + EntriesIn(b);
  }

  lemma {:induction false} DurableLogIsHistory(c: Config, ops: seq<Op>, t: Topic)
    requires c.retention.Durable?
    ensures LogStore.LogAt(Run(c, ops).0.logs, t) == EntriesIn(History(c, ops, t))
  {
    hide Run, History;
    if History(c, ops, t) == [] {
      LogFollowsHistory(c, ops, t);
    } else {
      LogMeetsPolicy(c, ops, t);
    }
  }

  /** A sink that subscribes for the first time listens from there on. */
  lemma {:induction false} SubscribingListens(c: Config, ops: seq<Op>, t: Topic, sink: Sink, id: nat)
    requires Filter(Run(c, ops).0.subs, WithSink(sink)) == []
    requires Apply(c, Run(c, ops).0, Subscribe(t, sink)).1 == Subscribed(id)
    ensures Listens(c, ops + [Subscribe(t, sink)], |ops| + 1, Sub(id, t, sink))
  {
    hide Run;
    var all, s := ops + [Subscribe(t, sink)], Run(c, ops).0;
    RunSnoc(c, ops, Subscribe(t, sink));
    FilterAppend(s.subs, [Sub(id, t, sink)], WithSink(sink));
    assert all[..|ops| + 1] == all;
  }

  /**
   Under Durable retention the stream and the log agree: since the subscription
   the log grew by `grown`, and the sink decoded the offsets and payloads of the
   part of `grown` that were not duplicates, at increasing offsets.
   */
  lemma {:induction false} LiveStreamAgreesWithLog(c: Config, ops: seq<Op>, from: nat, sub: Sub)
    requires c.retention.Durable? && |ops| < TWO_63 - 1 && Listens(c, ops, from, sub)
    ensures var t, grown := sub.topic, Since(c, ops, from, sub.topic);
      && LogStore.LogAt(Run(c, ops).0.logs, t) == LogStore.LogAt(Run(c, ops[..from]).0.logs, t) + EntriesIn(grown)
      && Map(Received(c, ops, from, sub.sink), Parsed()) == Map(Filter(grown, IsFresh()), PairOfRecord())
      && OffsetsIncrease(Filter(grown, IsFresh()), |History(c, ops, t)| + 1)
  {
    DurableLogGrows(c, ops, from, sub.topic);
    LiveStreamIsHistory(c, ops, from, sub);
    LiveOffsetsIncrease(c, ops, from, sub.topic);
  }
}
