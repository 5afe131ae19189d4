/**
 Log entries and retention: eviction on every append, and the one-shot policy
 over the whole history that it amounts to.
 */
module Retention {
  import opened Sequences
  import opened Bytes

  datatype LogEntry = LogEntry(
    offset: i64,
    publisherSession: Option<bytes>,
    messageId: bytes,
    class_: bytes,
    event: Option<bytes>,
    payload: bytes,
    timestamp: int,
    appendedAt: Option<int>
  )

  datatype Policy =
    | NoRetention
    | Ttl(ms: nat)
    | Count(n: nat)
    | Size(maxBytes: nat)
    | Durable
    | Latest

  /** Which clock dates an entry: the publisher's, or the broker's when it was stamped. */
  datatype Clock = Sender | Server {
    function Birth(e: LogEntry): int {
      match this
      case Sender => e.timestamp
      case Server => e.appendedAt.GetOr(e.timestamp)
    }
  }

  function Alive(now: int, ms: nat, clock: Clock): LogEntry -> bool {
    (e: LogEntry) => now - clock.Birth(e) <= ms
  }

  function AtOffset(offset: i64): LogEntry -> bool {
    (e: LogEntry) => e.offset == offset
  }

  function TotalBytes(log: seq<LogEntry>): nat {
    if log == [] then 0 else |log[0].payload| + TotalBytes(log[1..])
  }

  /** Drop the oldest entries until the payloads fit. */
  function WithinBudget(log: seq<LogEntry>, maxBytes: nat): (r: seq<LogEntry>)
    ensures IsSuffix(r, log) && TotalBytes(r) <= maxBytes
    ensures forall d :: 0 <= d < |log| - |r| ==> TotalBytes(log[d..]) > maxBytes
  {
    if TotalBytes(log) <= maxBytes then assert log[0..] == log; log
    else
      var r := WithinBudget(log[1..], maxBytes);
      assert forall d :: 1 <= d <= |log| ==> log[d..] == log[1..][d - 1..];
      assert log[0..] == log;
      r
  }

  /** What one append leaves of a log whose last entry was just pushed. */
  function Evict(log: seq<LogEntry>, policy: Policy, now: int, clock: Clock): (r: seq<LogEntry>)
    requires log != []
    ensures |r| <= |log|
  {
    match policy
    case NoRetention => []
    case Count(n) => LastN(log, n)
    case Size(maxBytes) => WithinBudget(log, maxBytes)
    case Ttl(ms) => Filter(log, Alive(now, ms, clock))
    case Latest => Filter(log, AtOffset(log[|log| - 1].offset))
    case Durable => log
  }

  // ---- Whole runs of appends ------------------------------------------------

  datatype Appended = Appended(entry: LogEntry, now: int)

  function EntryOf(): Appended -> LogEntry { (a: Appended) => a.entry }

  function EntriesOf(history: seq<Appended>): (r: seq<LogEntry>)
    ensures |r| == |history|
  {
    Map(history, EntryOf())
  }

  /** The log after appending a history entry by entry, evicting each time. */
  function Online(history: seq<Appended>, policy: Policy, clock: Clock): (r: seq<LogEntry>) {
    if history == [] then []
    else
      var n := |history| - 1;
      Evict(Online(history[..n], policy, clock) + [history[n].entry], policy, history[n].now, clock)
  }

  ghost predicate MonotoneClock(history: seq<Appended>) {
    forall i, j :: 0 <= i < j < |history| ==> history[i].now <= history[j].now
  }

  /** `r` is the longest suffix of `all` whose payloads fit in `maxBytes`. */
  ghost predicate LongestWithin(r: seq<LogEntry>, all: seq<LogEntry>, maxBytes: nat) {
    && IsSuffix(r, all)
    && TotalBytes(r) <= maxBytes
    && forall d :: 0 <= d < |all| - |r| ==> TotalBytes(all[d..]) > maxBytes
  }

  /** The longest suffix of `all` whose entries share the last offset. */
  function TrailingRun(all: seq<LogEntry>): (r: seq<LogEntry>)
    ensures |r| <= |all| && (all != [] ==> r != [])
    ensures forall i :: 0 <= i < |r| ==> r[i].offset == all[|all| - 1].offset
  {
    var n := |all| - 1;
    if n <= 0 then all
    else if all[n - 1].offset != all[n].offset then [all[n]]
    else TrailingRun(all[..n]) + [all[n]]
  }

  /** The policy as a statement about the complete history and the last append's clock. */
  ghost predicate MeetsPolicy(r: seq<LogEntry>, all: seq<LogEntry>, policy: Policy, now: int, clock: Clock) {
    match policy
    case NoRetention => r == []
    case Count(n) => r == LastN(all, n)
    case Size(maxBytes) => LongestWithin(r, all, maxBytes)
    case Ttl(ms) => r == Filter(all, Alive(now, ms, clock))
    case Latest => r == TrailingRun(all)
    case Durable => r == all
  }

  lemma {:induction false} TotalBytesAppend(a: seq<LogEntry>, b: seq<LogEntry>)
    ensures TotalBytes(a + b) == TotalBytes(a) + TotalBytes(b)
    ensures |b| == 1 ==> TotalBytes(b) == |b[0].payload|
  {
    if a == [] {
      assert a + b == b;
    } else {
      TotalBytesAppend(a[1..], b);
      assert (a + b)[1..] == a[1..] + b;
    }
  }

  /** The longest suffix of a suffix, when nothing longer than the latter fits. */
  lemma {:induction false} LongestOfSuffix(w: seq<LogEntry>, s: seq<LogEntry>, k: nat,
                                           all: seq<LogEntry>, maxBytes: nat)
    requires k <= |all| && all[k..] == s
    requires LongestWithin(w, s, maxBytes)
    requires forall d :: 0 <= d < k ==> TotalBytes(all[d..]) > maxBytes
    ensures LongestWithin(w, all, maxBytes)
  {
    forall d | k <= d < |all| - |w| ensures TotalBytes(all[d..]) > maxBytes {
      assert all[d..] == s[d - k..];
    }
    assert all[|all| - |w|..] == s[|s| - |w|..];
  }

  lemma {:induction false} SizeStep(r: seq<LogEntry>, all: seq<LogEntry>, e: LogEntry, maxBytes: nat)
    requires LongestWithin(r, all, maxBytes)
    ensures LongestWithin(WithinBudget(r + [e], maxBytes), all + [e], maxBytes)
  {
    var k := |all| - |r|;
    forall d | 0 <= d < k ensures TotalBytes((all + [e])[d..]) > maxBytes {
      assert (all + [e])[d..] == all[d..] + [e];
      TotalBytesAppend(all[d..], [e]);
    }
    assert (all + [e])[k..] == r + [e];
    LongestOfSuffix(WithinBudget(r + [e], maxBytes), r + [e], k, all + [e], maxBytes);
  }

  lemma {:induction false} TtlStep(all: seq<LogEntry>, e: LogEntry, ms: nat, before: int, now: int, clock: Clock)
    requires before <= now
    ensures Filter(Filter(all, Alive(before, ms, clock)) + [e], Alive(now, ms, clock)) ==
            Filter(all + [e], Alive(now, ms, clock))
  {
    var p, q := Alive(before, ms, clock), Alive(now, ms, clock);
    FilterCommutes(all, p, q);
    FilterMember(all, q);
    FilterAll(Filter(all, q), p);
    FilterAppend(Filter(all, p), [e], q);
    FilterAppend(all, [e], q);
  }

  lemma {:induction false} LatestStep(all: seq<LogEntry>, e: LogEntry)
    ensures Filter(TrailingRun(all) + [e], AtOffset(e.offset)) == TrailingRun(all + [e])
  {
    var r, q := TrailingRun(all), AtOffset(e.offset);
    assert (all + [e])[..|all|] == all;
    FilterAppend(r, [e], q);
    if all != [] && all[|all| - 1].offset == e.offset {
      FilterAll(r, q);
    } else {
      FilterNone(r, q);
    }
  }

  /** One append: if the log met the policy before it, the log meets it after. */
  lemma {:induction false} PolicyStep(r: seq<LogEntry>, all: seq<LogEntry>, e: LogEntry, policy: Policy,
                                      before: int, now: int, clock: Clock)
    requires MeetsPolicy(r, all, policy, before, clock)
    requires policy.Ttl? ==> before <= now
    ensures MeetsPolicy(Evict(r + [e], policy, now, clock), all + [e], policy, now, clock)
  {
    if policy.Latest? {
      assert (r + [e])[|r + [e]| - 1] == e;
      LatestStep(all, e);
    } else if policy.Size? {
      SizeStep(r, all, e, policy.maxBytes);
    } else if policy.Ttl? {
      TtlStep(all, e, policy.ms, before, now, clock);
    }
  }

  lemma {:induction false} OnlineStep(history: seq<Appended>, a: Appended, policy: Policy, before: int, clock: Clock)
    requires MeetsPolicy(Online(history, policy, clock), EntriesOf(history), policy, before, clock)
    requires policy.Ttl? ==> before <= a.now
    ensures MeetsPolicy(Online(history + [a], policy, clock), EntriesOf(history + [a]), policy, a.now, clock)
  {
    PolicyStep(Online(history, policy, clock), EntriesOf(history), a.entry, policy, before, a.now, clock);
    assert (history + [a])[..|history|] == history;
    assert EntriesOf(history + [a]) == EntriesOf(history) + [a.entry];
  }

  lemma {:induction false} NothingMeetsPolicy(policy: Policy, now: int, clock: Clock)
    ensures MeetsPolicy([], [], policy, now, clock)
  {
  }

  /**
   Evicting on every append gives exactly what the policy would keep if it were
   applied once to the complete history. A Ttl needs a clock that never goes back.
   */
  lemma {:induction false} OnlineIsOffline(history: seq<Appended>, policy: Policy, clock: Clock)
    requires history != []
    requires policy.Ttl? ==> MonotoneClock(history)
    ensures MeetsPolicy(Online(history, policy, clock), EntriesOf(history), policy, history[|history| - 1].now, clock)
  {
    var n := |history| - 1;
    var now := history[n].now;
    assert history == history[..n] + [history[n]];
    if n == 0 {
      NothingMeetsPolicy(policy, now, clock);
      OnlineStep([], history[0], policy, now, clock);
    } else {
      OnlineIsOffline(history[..n], policy, clock);
      OnlineStep(history[..n], history[n], policy, history[n - 1].now, clock);
    }
  }

  /** Under Ttl an entry is kept exactly when the last append found it no older than the ttl. */
  lemma {:induction false} TtlKeepsExactly(history: seq<Appended>, ms: nat, clock: Clock, e: LogEntry)
    requires history != [] && MonotoneClock(history)
    ensures var now := history[|history| - 1].now;
      var born := if clock == Server && e.appendedAt.Some? then e.appendedAt.value else e.timestamp;
      e in Online(history, Ttl(ms), clock) <==> e in EntriesOf(history) && now <= born + ms
  {
    hide Online;
    OnlineIsOffline(history, Ttl(ms), clock);
    FilterMember(EntriesOf(history), Alive(history[|history| - 1].now, ms, clock));
  }

  /**
   Under Latest the log is just the newest entry exactly when the newest entry
   did not reuse the offset of the one before it.
   */
  lemma {:induction false} LatestKeepsOne(history: seq<Appended>, clock: Clock)
    requires history != []
    ensures Online(history, Latest, clock) == [history[|history| - 1].entry] <==>
            |history| == 1 || history[|history| - 2].entry.offset != history[|history| - 1].entry.offset
  {
    OnlineIsOffline(history, Latest, clock);
    assert |history| > 1 ==> TrailingRun(EntriesOf(history)[..|history| - 1]) != [];
  }

  // ---- The in-memory log of a topic -------------------------------------------

  const DURABLE_MEMORY_CAP: nat := 10_000

  /** The bounded window that a topic entry keeps when an external store holds the rest. */
  function InMemoryPolicy(p: Policy): Policy {
    if p.Durable? then Count(DURABLE_MEMORY_CAP) else p
  }

  /** An entry as a topic stores it: dated by the broker, and by its sender if it said nothing. */
  function Stamp(e: LogEntry, now: int): LogEntry {
    e.(timestamp := if e.timestamp == 0 then now else e.timestamp, appendedAt := Some(now))
  }

  /** The number of entries at the front of `g` that a byte budget evicts. */
  method OverBudget(g: seq<LogEntry>, maxBytes: nat) returns (idx: nat)
    ensures idx <= |g|
    ensures g[idx..] == WithinBudget(g, maxBytes)
  {
    var total := TotalBytes(g);
    idx := 0;
    assert g[0..] == g;
    while total > maxBytes && idx < |g|
      invariant idx <= |g|
      invariant total == TotalBytes(g[idx..])
      invariant WithinBudget(g[idx..], maxBytes) == WithinBudget(g, maxBytes)
    {
      assert g[idx..][1..] == g[idx + 1..];
      total := total - |g[idx].payload|;
      idx := idx + 1;
    }
  }

  /** Apply a retention policy to a log whose last entry was just pushed. */
  method Enforce(log: seq<LogEntry>, policy: Policy, now: int, clock: Clock) returns (g: seq<LogEntry>)
    requires log != []
    ensures g == Evict(log, policy, now, clock)
  {
    g := log;
    match policy {
      case NoRetention => g := [];
      case Count(n) =>
        if |g| > n { g := g[|g| - n..]; }
      case Size(maxBytes) =>
        var idx := OverBudget(g, maxBytes);
        if idx > 0 { g := g[idx..]; }
      case Ttl(ms) => g := Filter(g, Alive(now, ms, clock));
      case Latest => g := Filter(g, AtOffset(g[|g| - 1].offset));
      case Durable =>
    }
  }

  class TopicEntry {
    const retention: Policy
    const snapshotEnabled: bool
    var log: seq<LogEntry>
    var latestSnapshot: Option<LogEntry>

    /** Everything that was ever appended, as it was handed in. */
    ghost var history: seq<Appended>

    ghost predicate Valid()
      reads this
    {
      log == TopicLog(history, retention)
    }

    constructor (retention: Policy, snapshotEnabled: bool)
      ensures Valid() && history == []
      ensures this.retention == retention && this.snapshotEnabled == snapshotEnabled && latestSnapshot == None
    {
      this.retention := retention;
      this.snapshotEnabled := snapshotEnabled;
      log, latestSnapshot, history := [], None, [];
    }

    method Append(entry: LogEntry, now: int)
      requires Valid()
      modifies this
      ensures Valid() && history == old(history) + [Appended(entry, now)]
      ensures log == Evict(old(log) + [Stamp(entry, now)], InMemoryPolicy(retention), now, Server)
      ensures latestSnapshot == if snapshotEnabled then Some(Stamp(entry, now)) else old(latestSnapshot)
    {
      hide TopicLog;
      var e := entry;
      if e.timestamp == 0 {
        e := e.(timestamp := now);
      }
      e := e.(appendedAt := Some(now));
      assert e == Stamp(entry, now);
      if retention.Durable? {
        log := log + [e];
        if |log| > DURABLE_MEMORY_CAP {
          log := log[|log| - DURABLE_MEMORY_CAP..];
        }
      } else {
        log := Enforce(log + [e], retention, now, Server);
      }
      if snapshotEnabled {
        latestSnapshot := Some(e);
      }
      TopicLogSnoc(history, Appended(entry, now), retention);
      history := history + [Appended(entry, now)];
    }
  }

  // ---- Whole runs of a topic entry ---------------------------------------------

  function StampOne(): Appended -> Appended { (a: Appended) => Appended(Stamp(a.entry, a.now), a.now) }

  function StampAll(history: seq<Appended>): seq<Appended> { Map(history, StampOne()) }

  /** The log of a topic entry after a history of appends. */
  function TopicLog(history: seq<Appended>, retention: Policy): seq<LogEntry> {
    Online(StampAll(history), InMemoryPolicy(retention), Server)
  }

  lemma {:induction false} TopicLogSnoc(history: seq<Appended>, a: Appended, retention: Policy)
    ensures TopicLog(history + [a], retention) ==
            Evict(TopicLog(history, retention) + [Stamp(a.entry, a.now)], InMemoryPolicy(retention), a.now, Server)
  {
    hide Evict;
    assert StampAll(history + [a])[..|history|] == StampAll(history);
  }

  /** The index from which on a history is no older than `ms`. */
  function RecentFrom(history: seq<Appended>, now: int, ms: nat): (d: nat)
    ensures d <= |history|
  {
    if history == [] then 0
    else if now - history[|history| - 1].now > ms then |history|
    else RecentFrom(history[..|history| - 1], now, ms)
  }

  lemma {:induction false} RecentSuffix(history: seq<Appended>, now: int, ms: nat)
    requires MonotoneClock(history)
    ensures forall i :: 0 <= i < |history| ==> (now - history[i].now <= ms <==> i >= RecentFrom(history, now, ms))
  {
    if history != [] {
      RecentSuffix(history[..|history| - 1], now, ms);
    }
  }

  /**
   Under Ttl a topic entry keeps exactly what it was handed within the last `ms`,
   whatever timestamps the publishers wrote, and that is a suffix.
   */
  lemma {:induction false} TopicTtlIsRecent(history: seq<Appended>, ms: nat)
    requires history != [] && MonotoneClock(history)
    ensures TopicLog(history, Ttl(ms)) ==
            EntriesOf(StampAll(history))[RecentFrom(history, history[|history| - 1].now, ms)..]
  {
    var all, now := EntriesOf(StampAll(history)), history[|history| - 1].now;
    OnlineIsOffline(StampAll(history), Ttl(ms), Server);
    RecentSuffix(history, now, ms);
    FilterFrom(all, RecentFrom(history, now, ms), Alive(now, ms, Server));
  }

  /** An entry as it stands in a topic's log, against the entry as it was handed in. */
  ghost predicate StampedFrom(e: LogEntry, a: Appended) {
    && e.offset == a.entry.offset && e.messageId == a.entry.messageId && e.payload == a.entry.payload
    && e.publisherSession == a.entry.publisherSession && e.class_ == a.entry.class_ && e.event == a.entry.event
    && e.appendedAt == Some(a.now)
    && (a.entry.timestamp != 0 ==> e.timestamp == a.entry.timestamp)
    && (a.entry.timestamp == 0 ==> e.timestamp == a.now)
  }

  /**
   What a topic entry holds under each policy, of everything that it was handed,
   and that under Durable it holds the last 10 000.
   */
  lemma {:induction false} TopicLogMeetsPolicy(history: seq<Appended>, retention: Policy)
    requires history != [] && (retention.Ttl? ==> MonotoneClock(history))
    ensures var all := EntriesOf(StampAll(history)); var r := TopicLog(history, retention);
      && (forall i :: 0 <= i < |history| ==> StampedFrom(all[i], history[i]))
      && (if retention.Durable? then IsSuffix(r, all) && |r| == (if |all| < 10_000 then |all| else 10_000)
          else MeetsPolicy(r, all, retention, history[|history| - 1].now, Server))
  {
    OnlineIsOffline(StampAll(history), InMemoryPolicy(retention), Server);
  }
}
