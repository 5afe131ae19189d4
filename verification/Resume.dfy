/**
 Resuming a session: the decision over a client's offsets, the heads that the
 handshake collects for it, and the replay of what the client missed.
 */
module Resume {
  import opened Sequences
  import opened Bytes
  import opened Keys
  import opened Retention
  import opened FrameCodec
  import opened Broker
  import opened BrokerRuns
  import OffsetStore
  import LogStore

  type Offsets = map<Topic, i64>

  datatype Decision = FullResume | PartialResume | Replaying | SnapshotRequired | ColdStart | RejectResume

  // ---- The decision -----------------------------------------------------------------

  /** `x.saturating_sub(1)`. */
  function SaturatingPred(x: i64): i64 { if x == -0x8000_0000_0000_0000 then x else x - 1 }

  function LastOf(last: Offsets, t: Topic): i64 { if t in last then last[t] else 0 }

  /** Where the loop stands: it has returned, or it goes on with its two flags. */
  datatype Progress = Returned(decision: Decision) | Flags(within: bool, behind: bool)

  /** The loop, over one order in which the client's topics may come up. */
  function Scan(order: seq<Topic>, last: Offsets, heads: Offsets): Progress {
    if order == [] then Flags(true, false)
    else
      var n := |order| - 1;
      var t := order[n];
      match Scan(order[..n], last, heads)
      case Returned(d) => Returned(d)
      case Flags(within, behind) =>
        if t !in heads then Returned(SnapshotRequired)
        else if LastOf(last, t) > heads[t] then Returned(RejectResume)
        else Flags(within && LastOf(last, t) >= SaturatingPred(heads[t]), behind || LastOf(last, t) < heads[t])
  }

  /** `order` lists the elements of `keys`, each once. */
  ghost predicate Enumerates(order: seq<Topic>, keys: set<Topic>) {
    if order == [] then keys == {}
    else
      var t := order[|order| - 1];
      t in keys && Enumerates(order[..|order| - 1], keys - {t})
  }

  lemma {:induction false} Enumerated(order: seq<Topic>, keys: set<Topic>)
    requires Enumerates(order, keys)
    ensures forall i :: 0 <= i < |order| ==> order[i] in keys
    ensures forall t :: t in keys ==> t in order
  {
    if order != [] {
      var n := |order| - 1;
      Enumerated(order[..n], keys - {order[n]});
      assert order == order[..n] + [order[n]];
    }
  }

  lemma {:induction false} EnumerateMore(a: seq<Topic>, ka: set<Topic>, b: seq<Topic>, kb: set<Topic>)
    requires Enumerates(a, ka) && Enumerates(b, kb) && ka !! kb
    ensures Enumerates(a + b, ka + kb)
  {
    if b == [] {
      assert a + b == a && ka + kb == ka;
    } else {
      var n := |b| - 1;
      EnumerateMore(a, ka, b[..n], kb - {b[n]});
      assert (a + b)[..|a + b| - 1] == a + b[..n];
      assert ka + kb - {b[n]} == ka + (kb - {b[n]});
    }
  }

  lemma {:induction false} EnumerateOne(t: Topic)
    ensures Enumerates([t], {t})
  {
    assert Enumerates([], {});
    assert [t][..0] == [] && {t} - {t} == {};
  }

  lemma {:induction false} ListAll(keys: set<Topic>) returns (order: seq<Topic>)
    ensures Enumerates(order, keys)
    decreases |keys|
  {
    if keys == {} {
      order := [];
    } else {
      var t :| t in keys;
      var rest := ListAll(keys - {t});
      order := rest + [t];
      assert order[..|rest|] == rest;
    }
  }

  /** An order in which a given part comes first. */
  lemma {:induction false} ListFrom(start: seq<Topic>, done: set<Topic>, keys: set<Topic>) returns (order: seq<Topic>)
    requires Enumerates(start, done) && done <= keys
    ensures Enumerates(order, keys) && start <= order
  {
    var others := ListAll(keys - done);
    order := start + others;
    EnumerateMore(start, done, others, keys - done);
    assert done + (keys - done) == keys;
  }

  function DecideInOrder(order: seq<Topic>, last: Offsets, heads: Offsets): Decision {
    if last == map[] then ColdStart
    else
      match Scan(order, last, heads)
      case Returned(d) => d
      case Flags(within, behind) => if behind && within then Replaying else if behind then PartialResume else FullResume
  }

  lemma {:induction false} ReturnedStays(a: seq<Topic>, order: seq<Topic>, last: Offsets, heads: Offsets)
    requires a <= order && Scan(a, last, heads).Returned?
    ensures Scan(order, last, heads) == Scan(a, last, heads)
  {
    if |a| < |order| {
      ReturnedStays(a, order[..|order| - 1], last, heads);
    } else {
      assert a == order;
    }
  }

  /** `d` is the answer for some order of iteration. */
  ghost predicate PossibleDecision(d: Decision, last: Offsets, heads: Offsets) {
    exists order :: Enumerates(order, last.Keys) && d == DecideInOrder(order, last, heads)
  }

  /** A loop that returns at `t` has found a possible answer, whatever is left. */
  lemma {:induction false} ReturnIsPossible(seen: seq<Topic>, t: Topic, rest: set<Topic>, last: Offsets, heads: Offsets)
    requires rest <= last.Keys && t in rest && Enumerates(seen, last.Keys - rest)
    requires Scan(seen + [t], last, heads).Returned?
    ensures PossibleDecision(Scan(seen + [t], last, heads).decision, last, heads)
  {
    var next, done := seen + [t], last.Keys - (rest - {t});
    assert next[..|seen|] == seen && done - {t} == last.Keys - rest;
    var order := ListFrom(next, done, last.Keys);
    ReturnedStays(next, order, last, heads);
  }

  /** Hash maps iterate in no particular order. */
  method Decide(last: Offsets, heads: Offsets) returns (r: Decision)
    ensures PossibleDecision(r, last, heads)
    ensures !(AnyMissing(last, heads) && AnyAhead(last, heads)) ==> r == SixCases(last, heads)
  {
    r := DecideLoop(last, heads);
    ghost var order :| Enumerates(order, last.Keys) && r == DecideInOrder(order, last, heads);
    if !(AnyMissing(last, heads) && AnyAhead(last, heads)) {
      DecidesSixCases(order, last, heads);
    }
  }

  method DecideLoop(last: Offsets, heads: Offsets) returns (r: Decision)
    ensures PossibleDecision(r, last, heads)
  {
    if last == map[] {
      assert Enumerates([], last.Keys);
      return ColdStart;
    }
    var within, behind, rest := true, false, last.Keys;
    ghost var seen := [];
    while rest != {}
      invariant rest <= last.Keys && Enumerates(seen, last.Keys - rest)
      invariant Scan(seen, last, heads) == Flags(within, behind)
      decreases |rest|
    {
      var t :| t in rest;
      assert (seen + [t])[..|seen|] == seen;
      assert last.Keys - (rest - {t}) - {t} == last.Keys - rest;
      if t !in heads {
        ReturnIsPossible(seen, t, rest, last, heads);
        return SnapshotRequired;
      }
      if last[t] > heads[t] {
        ReturnIsPossible(seen, t, rest, last, heads);
        return RejectResume;
      }
      if last[t] < heads[t] { behind := true; }
      if last[t] < SaturatingPred(heads[t]) { within := false; }
      rest := rest - {t};
      seen := seen + [t];
    }
    assert last.Keys - {} == last.Keys;
    assert Enumerates(seen, last.Keys);
    r := if behind && within then Replaying else if behind then PartialResume else FullResume;
  }

  /** Some topic of the client has no head. */
  ghost predicate AnyMissing(last: Offsets, heads: Offsets) {
    exists t :: t in last && t !in heads
  }

  ghost predicate AnyAhead(last: Offsets, heads: Offsets) {
    exists t :: t in last && t in heads && last[t] > heads[t]
  }

  ghost predicate AnyBehind(last: Offsets, heads: Offsets) {
    exists t :: t in last && t in heads && last[t] < heads[t]
  }

  ghost predicate AnyFarBehind(last: Offsets, heads: Offsets) {
    exists t :: t in last && t in heads && (heads[t] as int) - (last[t] as int) >= 2
  }

  /** The six cases, as statements about all topics at once. */
  ghost function SixCases(last: Offsets, heads: Offsets): Decision {
    if last == map[] then ColdStart
    else if AnyMissing(last, heads) then SnapshotRequired
    else if AnyAhead(last, heads) then RejectResume
    else if AnyFarBehind(last, heads) then PartialResume
    else if AnyBehind(last, heads) then Replaying
    else FullResume
  }

  // The same, over the topics that the loop has seen.

  ghost predicate MissingIn(order: seq<Topic>, heads: Offsets) {
    exists i :: 0 <= i < |order| && order[i] !in heads
  }

  ghost predicate AheadIn(order: seq<Topic>, last: Offsets, heads: Offsets) {
    exists i :: 0 <= i < |order| && order[i] in heads && LastOf(last, order[i]) > heads[order[i]]
  }

  ghost predicate BehindIn(order: seq<Topic>, last: Offsets, heads: Offsets) {
    exists i :: 0 <= i < |order| && order[i] in heads && LastOf(last, order[i]) < heads[order[i]]
  }

  ghost predicate FarBehindIn(order: seq<Topic>, last: Offsets, heads: Offsets) {
    exists i :: 0 <= i < |order| && order[i] in heads && (heads[order[i]] as int) - (LastOf(last, order[i]) as int) >= 2
  }

  lemma {:induction false} ScanSees(order: seq<Topic>, last: Offsets, heads: Offsets)
    ensures var p := Scan(order, last, heads);
      match p
      case Returned(d) =>
        || (d == SnapshotRequired && MissingIn(order, heads))
        || (d == RejectResume && AheadIn(order, last, heads))
      case Flags(within, behind) =>
        && !MissingIn(order, heads) && !AheadIn(order, last, heads)
        && behind == BehindIn(order, last, heads) && within == !FarBehindIn(order, last, heads)
  {
    if order != [] {
      var n := |order| - 1;
      ScanSees(order[..n], last, heads);
      assert order == order[..n] + [order[n]];
    }
  }

  lemma {:induction false} SeenIsAll(order: seq<Topic>, last: Offsets, heads: Offsets)
    requires Enumerates(order, last.Keys)
    ensures MissingIn(order, heads) == AnyMissing(last, heads)
    ensures AheadIn(order, last, heads) == AnyAhead(last, heads)
    ensures BehindIn(order, last, heads) == AnyBehind(last, heads)
    ensures FarBehindIn(order, last, heads) == AnyFarBehind(last, heads)
  {
    Enumerated(order, last.Keys);
  }

  /** Unless a topic is missing and another ahead, every order gives the six-case answer. */
  lemma {:induction false} DecidesSixCases(order: seq<Topic>, last: Offsets, heads: Offsets)
    requires Enumerates(order, last.Keys)
    requires !(AnyMissing(last, heads) && AnyAhead(last, heads))
    ensures DecideInOrder(order, last, heads) == SixCases(last, heads)
  {
    ScanSees(order, last, heads);
    SeenIsAll(order, last, heads);
  }

  /** An order that begins with a topic which ends the loop. */
  lemma {:induction false} DecideAt(t: Topic, last: Offsets, heads: Offsets) returns (order: seq<Topic>)
    requires t in last && (t in heads ==> last[t] > heads[t])
    ensures Enumerates(order, last.Keys)
    ensures DecideInOrder(order, last, heads) == if t in heads then RejectResume else SnapshotRequired
  {
    EnumerateOne(t);
    order := ListFrom([t], {t}, last.Keys);
    assert [t][..0] == [];
    ReturnedStays([t], order, last, heads);
  }

  /**
   The order of iteration matters exactly when the client names a missing topic
   and is ahead on another one.
   */
  lemma {:induction false} OrderMattersExactlyWhen(last: Offsets, heads: Offsets)
    ensures (exists a, b :: Enumerates(a, last.Keys) && Enumerates(b, last.Keys)
                            && DecideInOrder(a, last, heads) != DecideInOrder(b, last, heads))
       <==> AnyMissing(last, heads) && AnyAhead(last, heads)
  {
    if AnyMissing(last, heads) && AnyAhead(last, heads) {
      var t :| t in last && t !in heads;
      var u :| u in last && u in heads && last[u] > heads[u];
      var a := DecideAt(t, last, heads);
      var b := DecideAt(u, last, heads);
    } else {
      forall a | Enumerates(a, last.Keys) ensures DecideInOrder(a, last, heads) == SixCases(last, heads) {
        DecidesSixCases(a, last, heads);
      }
    }
  }

  // ---- The handshake ------------------------------------------------------------------

  function HeadOf(s: MemState, t: Topic): i64 {
    OffsetStore.MemApply(s.offsets, OffsetStore.Head(t)).1
  }

  function HeadsFor(s: MemState, last: Offsets): Offsets {
    map t | t in last :: HeadOf(s, t)
  }

  /** With a head for every topic of the client, the answer is the six-case one and never a snapshot. */
  lemma {:induction false} HandshakeDecides(order: seq<Topic>, last: Offsets, s: MemState)
    requires Enumerates(order, last.Keys)
    ensures DecideInOrder(order, last, HeadsFor(s, last)) == SixCases(last, HeadsFor(s, last))
    ensures SixCases(last, HeadsFor(s, last)) != SnapshotRequired
  {
    DecidesSixCases(order, last, HeadsFor(s, last));
  }

  /** The payloads that the handshake sends again for one topic. */
  function Replayed(s: MemState, last: Offsets, d: Decision, t: Topic): seq<bytes> {
    if (d.PartialResume? || d.Replaying?) && t in last && last[t] < HeadOf(s, t)
    then Payloads(Filter(LogStore.LogAt(s.logs, t), LogStore.InRange(last[t] + 1, HeadOf(s, t))))
    else []
  }

  function ReplayFrame(t: Topic): bytes -> Frame {
    (data: bytes) => DEFAULT_FRAME.(frameType := Data, payload := Some(data), topic := Some(t), flags := REPLAYED)
  }

  function ForTopic(t: Topic): Frame -> bool { (f: Frame) => f.topic == Some(t) }

  method CollectHeads(broker: InMemoryBroker, last: Offsets) returns (heads: Offsets)
    ensures heads == HeadsFor(broker.Abstract(), last)
  {
    heads := map[];
    var rest := last.Keys;
    while rest != {}
      invariant rest <= last.Keys
      invariant heads == map t | t in last && t !in rest :: HeadOf(broker.Abstract(), t)
      decreases |rest|
    {
      var t :| t in rest;
      var head := broker.HeadOffset(t);
      heads := heads[t := head];
      rest := rest - {t};
    }
  }

  /** The frames of one topic, written one after another. */
  method WriteReplay(t: Topic, payloads: seq<bytes>) returns (frames: seq<Frame>)
    ensures frames == Map(payloads, ReplayFrame(t))
  {
    frames := [];
    for i := 0 to |payloads|
      invariant frames == Map(payloads[..i], ReplayFrame(t))
    {
      var frame := DEFAULT_FRAME.(frameType := Data, codec := Json, payload := Some(payloads[i]), topic := Some(t));
      frame := frame.(flags := REPLAYED);
      frames := frames + [frame];
    }
    assert payloads[..|payloads|] == payloads;
  }

  lemma {:induction false} FramesOf(t: Topic, u: Topic, payloads: seq<bytes>)
    ensures Filter(Map(payloads, ReplayFrame(t)), ForTopic(u)) == if t == u then Map(payloads, ReplayFrame(t)) else []
  {
    var frames := Map(payloads, ReplayFrame(t));
    if t == u { FilterAll(frames, ForTopic(u)); } else { FilterNone(frames, ForTopic(u)); }
  }

  /** `bit` is set in a bitmap of flags. */
  predicate Flagged(flags: u16, bit: u16)
    requires bit > 0
  {
    flags / bit % 2 == 1
  }

  /** A data frame of topic `t`, marked as replayed and otherwise bare, with this payload. */
  ghost predicate CarriesOne(f: Frame, t: Topic, payload: bytes) {
    && f.frameType == Data && f.codec == Json && f.topic == Some(t) && f.payload == Some(payload)
    && Flagged(f.flags, 0x20) && f.flags == 0x20
    && f.version == 0 && f.frameId == 0 && f.timestamp == 0 && f.ttlMs == None && f.priority == None
    && f.sessionId == f.streamId == f.event == f.messageId == f.correlationId == f.traceId == None
  }

  /** The frames carry these payloads, in this order. */
  ghost predicate Carries(frames: seq<Frame>, t: Topic, payloads: seq<bytes>) {
    |frames| == |payloads| && forall i :: 0 <= i < |frames| ==> CarriesOne(frames[i], t, payloads[i])
  }

  lemma {:induction false} ReplayFramesCarry(t: Topic, payloads: seq<bytes>)
    ensures Carries(Map(payloads, ReplayFrame(t)), t, payloads)
  {
  }

  /** The handshake looks a topic's head up again before it replays it. */
  method ReplayTopic(broker: InMemoryBroker, last: Offsets, d: Decision, t: Topic) returns (frames: seq<Frame>)
    requires t in last && (d.PartialResume? || d.Replaying?)
    ensures frames == Map(Replayed(broker.Abstract(), last, d, t), ReplayFrame(t))
  {
    var payloads := [];
    var head := broker.HeadOffset(t);
    if last[t] < head {
      payloads := broker.Replay(t, last[t] + 1, head);
    }
    frames := WriteReplay(t, payloads);
  }

  /** The topics of `rest` are still to be replayed, the others have been. */
  ghost predicate ReplayedBut(written: seq<Frame>, s: MemState, last: Offsets, d: Decision, rest: set<Topic>) {
    forall t :: Filter(written, ForTopic(t)) ==
                if t in rest then [] else Map(Replayed(s, last, d, t), ReplayFrame(t))
  }

  lemma {:induction false} ReplayStep(written: seq<Frame>, s: MemState, last: Offsets, d: Decision,
                                      rest: set<Topic>, t: Topic)
    requires ReplayedBut(written, s, last, d, rest) && t in rest
    ensures ReplayedBut(written + Map(Replayed(s, last, d, t), ReplayFrame(t)), s, last, d, rest - {t})
  {
    hide Replayed;
    var frames := Map(Replayed(s, last, d, t), ReplayFrame(t));
    forall u ensures Filter(written + frames, ForTopic(u)) ==
                     if u in rest - {t} then [] else Map(Replayed(s, last, d, u), ReplayFrame(u)) {
      FilterAppend(written, frames, ForTopic(u));
      FramesOf(t, u, Replayed(s, last, d, t));
    }
  }

  /** Replay the topics in any order: each topic's frames are its missed payloads, in log order. */
  method Replay(broker: InMemoryBroker, last: Offsets, d: Decision) returns (written: seq<Frame>)
    ensures forall t :: Carries(Filter(written, ForTopic(t)), t, Replayed(broker.Abstract(), last, d, t))
  {
    written := [];
    if d.PartialResume? || d.Replaying? {
      var rest := last.Keys;
      while rest != {}
        invariant rest <= last.Keys
        invariant ReplayedBut(written, broker.Abstract(), last, d, rest)
        decreases |rest|
      {
        var t :| t in rest;
        var frames := ReplayTopic(broker, last, d, t);
        ReplayStep(written, broker.Abstract(), last, d, rest, t);
        written := written + frames;
        rest := rest - {t};
      }
    }
    forall t ensures Carries(Filter(written, ForTopic(t)), t, Replayed(broker.Abstract(), last, d, t)) {
      ReplayFramesCarry(t, Replayed(broker.Abstract(), last, d, t));
      assert Filter(written, ForTopic(t)) == Map(Replayed(broker.Abstract(), last, d, t), ReplayFrame(t));
    }
  }

  // ---- Nothing is lost ------------------------------------------------------------------

  /** How many messages a last offset says the client has seen: none, if it is negative. */
  function Seen(last: int): nat { if last < 0 then 0 else last }

  /** What the client has not seen: the entries after its last offset. */
  function Missed(c: Config, ops: seq<Op>, t: Topic, last: int): seq<LogEntry>
    requires last <= |History(c, ops, t)|
  {
    EntriesIn(History(c, ops, t))[Seen(last)..]
  }

  function LastAppend(h: seq<Record>): int { if h == [] then 0 else h[|h| - 1].now }

  /** The retention policy still covers everything that was missed. */
  ghost predicate Covers(policy: Policy, missed: seq<LogEntry>, now: int) {
    match policy
    case NoRetention => missed == []
    case Count(n) => |missed| <= n
    case Size(maxBytes) => TotalBytes(missed) <= maxBytes
    case Ttl(ms) => forall i :: 0 <= i < |missed| ==> Alive(now, ms, Sender)(missed[i])
    case Latest => |missed| <= 1
    case Durable => true
  }

  /** The entries of a complete history: offsets 1, 2, 3, ... */
  ghost predicate Numbered(all: seq<LogEntry>) {
    forall i :: 0 <= i < |all| ==> all[i].offset == i + 1
  }

  lemma {:induction false} RangeOfNumbered(all: seq<LogEntry>, k: nat, last: int)
    requires Numbered(all) && k <= |all| && last <= |all|
    ensures Filter(all[k..], LogStore.InRange(last + 1, |all|)) == all[if k < last then last else k..]
  {
    var d := if k < last then last else k;
    FilterFrom(all[k..], d - k, LogStore.InRange(last + 1, |all|));
    assert all[k..][d - k..] == all[d..];
  }

  lemma {:induction false} LatestOfNumbered(all: seq<LogEntry>)
    requires Numbered(all) && all != []
    ensures TrailingRun(all) == all[|all| - 1..]
  {
    var n := |all| - 1;
    assert n > 0 ==> all[n - 1].offset != all[n].offset;
  }

  /** Where the part of a history that a policy keeps begins, a ttl apart. */
  lemma {:induction false} KeptFrom(r: seq<LogEntry>, all: seq<LogEntry>, policy: Policy, now: int, last: nat)
    returns (k: nat)
    requires MeetsPolicy(r, all, policy, now, Sender) && Numbered(all) && all != [] && !policy.Ttl? && last <= |all|
    ensures k <= |all| && r == all[k..]
    ensures k <= last <==> Covers(policy, all[last..], now)
  {
    hide TrailingRun, TotalBytes;
    k := |all| - |r|;
    if policy.Size? {
      if k <= last {
        TotalBytesAppend(all[k..last], all[last..]);
        assert all[k..last] + all[last..] == all[k..];
      }
    } else if policy.Latest? {
      LatestOfNumbered(all);
    }
  }

  lemma {:induction false} RangeOfAlive(all: seq<LogEntry>, p: LogEntry -> bool, last: int)
    requires Numbered(all) && last <= |all|
    ensures Filter(Filter(all, p), LogStore.InRange(last + 1, |all|)) == Filter(all[Seen(last)..], p)
  {
    hide Numbered;
    FilterCommutes(all, p, LogStore.InRange(last + 1, |all|));
    assert all[0..] == all;
    RangeOfNumbered(all, 0, last);
  }

  lemma {:induction false} AllPassExactlyWhen(s: seq<LogEntry>, p: LogEntry -> bool)
    ensures Payloads(Filter(s, p)) == Payloads(s) <==> forall i :: 0 <= i < |s| ==> p(s[i])
  {
    if i :| 0 <= i < |s| && !p(s[i]) {
      FilterDrops(s, p, i);
    } else {
      FilterAll(s, p);
    }
  }

  lemma {:induction false} TtlReplay(all: seq<LogEntry>, ms: nat, now: int, last: int)
    requires Numbered(all) && last <= |all|
    ensures var r, missed := Filter(all, Alive(now, ms, Sender)), all[Seen(last)..];
      Payloads(Filter(r, LogStore.InRange(last + 1, |all|))) == Payloads(missed) <==> Covers(Ttl(ms), missed, now)
  {
    hide Filter, Numbered;
    RangeOfAlive(all, Alive(now, ms, Sender), last);
    AllPassExactlyWhen(all[Seen(last)..], Alive(now, ms, Sender));
  }

  lemma {:induction false} FilterDrops(s: seq<LogEntry>, p: LogEntry -> bool, i: nat)
    requires i < |s| && !p(s[i])
    ensures |Filter(s, p)| < |s|
  {
    var n := |s| - 1;
    if i < n { FilterDrops(s[..n], p, i); }
  }

  lemma {:induction false} LogReplay(r: seq<LogEntry>, all: seq<LogEntry>, policy: Policy, now: int, last: int)
    requires MeetsPolicy(r, all, policy, now, Sender) && Numbered(all) && all != [] && last <= |all|
    ensures var missed := all[Seen(last)..];
      Payloads(Filter(r, LogStore.InRange(last + 1, |all|))) == Payloads(missed) <==> Covers(policy, missed, now)
  {
    hide Filter, Numbered, Covers, TrailingRun, TotalBytes, LongestWithin;
    if policy.Ttl? {
      TtlReplay(all, policy.ms, now, last);
    } else {
      var k := KeptFrom(r, all, policy, now, Seen(last));
      RangeOfNumbered(all, k, last);
    }
  }

  /**
   For a client whose last offset on a topic is `last`, the log between `last + 1`
   and the head is exactly what it missed, in order, with no gap and no repeat,
   if and only if the policy still covers that.
   */
  lemma {:induction false} ReplayIsCompleteExactlyWhen(c: Config, ops: seq<Op>, t: Topic, last: int)
    requires |ops| < TWO_63 - 1 && last <= |History(c, ops, t)|
    requires c.retention.Ttl? ==> MonotoneClock(AppendsOf(History(c, ops, t)))
    ensures var s, h := Run(c, ops).0, History(c, ops, t);
      var missed := Missed(c, ops, t, last);
      Payloads(Filter(LogStore.LogAt(s.logs, t), LogStore.InRange(last + 1, HeadOf(s, t)))) == Payloads(missed)
      <==> Covers(c.retention, missed, LastAppend(h))
  {
    hide Run, History, MeetsPolicy;
    var h := History(c, ops, t);
    OffsetsCountPublishes(c, ops, t);
    if h == [] {
      LogFollowsHistory(c, ops, t);
    } else {
      LogMeetsPolicy(c, ops, t);
      LogReplay(LogStore.LogAt(Run(c, ops).0.logs, t), EntriesIn(h), c.retention, LastAppend(h), last);
    }
  }

  lemma {:induction false} AscendingCount(log: seq<LogEntry>, bound: int, last: int, to: int)
    requires LogStore.Ascending(log, bound) && last < bound
    ensures |Filter(log, LogStore.InRange(last + 1, to))| < bound - last
  {
    if log != [] {
      var n := |log| - 1;
      if log[n].offset > last {
        AscendingCount(log[..n], log[n].offset, last, to);
      } else {
        LogStore.AscendingBelow(log[..n], log[n].offset);
        AscendingCount(log[..n], bound, last, to);
      }
    }
  }

  /**
   Whatever the handshake decides short of a rejection, each topic gets exactly
   what its client missed, provided the policy covers it: one message at most
   under Replaying, and none under FullResume.
   */
  lemma {:induction false} ResumeLosesNothing(c: Config, ops: seq<Op>, last: Offsets, order: seq<Topic>, t: Topic)
    requires |ops| < TWO_63 - 1 && Enumerates(order, last.Keys) && t in last
    requires c.retention.Ttl? ==> MonotoneClock(AppendsOf(History(c, ops, t)))
    ensures var s := Run(c, ops).0; var d := DecideInOrder(order, last, HeadsFor(s, last));
      && (d != RejectResume ==>
            && last[t] <= |History(c, ops, t)|
            && (Covers(c.retention, Missed(c, ops, t, last[t]), LastAppend(History(c, ops, t))) ==>
                  Replayed(s, last, d, t) == Payloads(Missed(c, ops, t, last[t]))))
      && (d == Replaying ==> |Replayed(s, last, d, t)| <= 1)
      && (d == FullResume ==> last[t] == |History(c, ops, t)| && Replayed(s, last, d, t) == [])
  {
    hide Run, History, Covers, Filter, LogStore.Ascending, EntriesIn;
    var s := Run(c, ops).0;
    var heads := HeadsFor(s, last);
    HandshakeDecides(order, last, s);
    OffsetsCountPublishes(c, ops, t);
    assert t in heads && heads[t] == HeadOf(s, t) == |History(c, ops, t)|;
    if last[t] <= heads[t] {
      ReplayIsCompleteExactlyWhen(c, ops, t, last[t]);
      LogAscends(c, ops, t);
      AscendingCount(LogStore.LogAt(s.logs, t), heads[t] + 1, last[t], heads[t]);
    }
  }

  function After(last: int): LogEntry -> bool { (e: LogEntry) => e.offset > last }

  /** Covered or not, a topic that is replayed gets everything after its last offset that the log still holds. */
  lemma {:induction false} ReplaysWhatIsLeft(c: Config, ops: seq<Op>, last: Offsets, d: Decision, t: Topic)
    requires |ops| < TWO_63 - 1 && t in last && (d == PartialResume || d == Replaying)
    ensures var s := Run(c, ops).0;
      Replayed(s, last, d, t) == Payloads(Filter(LogStore.LogAt(s.logs, t), After(last[t])))
  {
    hide Run, History, Filter, LogStore.Ascending;
    var s := Run(c, ops).0;
    var log := LogStore.LogAt(s.logs, t);
    OffsetsCountPublishes(c, ops, t);
    LogAscends(c, ops, t);
    LogStore.AscendingBelow(log, |History(c, ops, t)| + 1);
    if last[t] < HeadOf(s, t) {
      FilterAgree(log, LogStore.InRange(last[t] + 1, HeadOf(s, t)), After(last[t]));
    } else {
      FilterNone(log, After(last[t]));
    }
  }

  /** What the resume theorem promises of the frames that one topic's client gets. */
  ghost predicate Resumed(c: Config, ops: seq<Op>, last: Offsets, d: Decision, frames: seq<Frame>, t: Topic)
    requires t in last
  {
    && (d != RejectResume ==>
          && last[t] <= |History(c, ops, t)|
          && (Covers(c.retention, Missed(c, ops, t, last[t]), LastAppend(History(c, ops, t))) ==>
                Carries(frames, t, Payloads(Missed(c, ops, t, last[t])))))
    && (d == Replaying ==> |frames| <= 1)
    && (d == FullResume || d == RejectResume ==> frames == [])
  }

  lemma {:induction false} FramesLoseNothing(c: Config, ops: seq<Op>, last: Offsets, d: Decision,
                                             frames: seq<Frame>, t: Topic)
    requires |ops| < TWO_63 - 1 && t in last
    requires c.retention.Ttl? ==> MonotoneClock(AppendsOf(History(c, ops, t)))
    requires PossibleDecision(d, last, HeadsFor(Run(c, ops).0, last))
    requires Carries(frames, t, Replayed(Run(c, ops).0, last, d, t))
    ensures Resumed(c, ops, last, d, frames, t)
  {
    hide Run, History, Covers, Filter, DecideInOrder, Payloads;
    var heads := HeadsFor(Run(c, ops).0, last);
    var order :| Enumerates(order, last.Keys) && d == DecideInOrder(order, last, heads);
    ResumeLosesNothing(c, ops, last, order, t);
  }

  /**
   The handshake of a resuming client, from its offsets to the frames on the wire:
   short of a rejection, every topic that the policy covers gets data frames with
   exactly the payloads that its client missed, in order, marked as replayed.
   */
  method Handshake(broker: InMemoryBroker, last: Offsets, ghost ops: seq<Op>)
    returns (d: Decision, written: seq<Frame>)
    requires |ops| < TWO_63 - 1 && broker.Abstract() == Run(broker.config, ops).0
    ensures PossibleDecision(d, last, HeadsFor(broker.Abstract(), last))
    ensures forall t :: t in last && (broker.config.retention.Ttl? ==>
                MonotoneClock(AppendsOf(History(broker.config, ops, t)))) ==>
              Resumed(broker.config, ops, last, d, Filter(written, ForTopic(t)), t)
  {
    hide Run, History, Filter, Replayed, Resumed, Carries;
    var heads := CollectHeads(broker, last);
    d := Decide(last, heads);
    written := Replay(broker, last, d);
    forall t | t in last && (broker.config.retention.Ttl? ==>
                 MonotoneClock(AppendsOf(History(broker.config, ops, t))))
      ensures Resumed(broker.config, ops, last, d, Filter(written, ForTopic(t)), t)
    {
      FramesLoseNothing(broker.config, ops, last, d, Filter(written, ForTopic(t)), t);
    }
  }
}
