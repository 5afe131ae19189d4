/**
 The topic message log: the in-memory store, the sled store, and the proof that
 they give the same answers over every run.
 */
module LogStore {
  import opened Sequences
  import opened Bytes
  import opened Keys
  import opened SledTree
  import opened Retention

  type Logs = map<Topic, seq<LogEntry>>
  type LogTree = Tree<LogEntry>

  datatype LogOp =
    | Append(topic: Topic, entry: LogEntry, retention: Policy, now: int)
    | Range(topic: Topic, from: int, to: int)
    | Newest(topic: Topic)
    | Remove(topic: Topic)

  datatype LogAnswer = Done | Entries(entries: seq<LogEntry>) | Last(entry: Option<LogEntry>)

  function InRange(from: int, to: int): LogEntry -> bool {
    (e: LogEntry) => from <= e.offset <= to
  }

  function LastOf(log: seq<LogEntry>): Option<LogEntry> {
    if log == [] then None else Some(log[|log| - 1])
  }

  // ---- Memory-backed store ----------------------------------------------------

  function LogAt(m: Logs, t: Topic): seq<LogEntry> {
    if t in m then m[t] else []
  }

  function MemAppend(m: Logs, t: Topic, e: LogEntry, policy: Policy, now: int): Logs {
    m[t := Evict(LogAt(m, t) + [e], policy, now, Sender)]
  }

  function MemApply(m: Logs, op: LogOp): (Logs, LogAnswer) {
    match op
    case Append(t, e, policy, now) => (MemAppend(m, t, e, policy, now), Done)
    case Range(t, from, to) => (m, Entries(Filter(LogAt(m, t), InRange(from, to))))
    case Newest(t) => (m, Last(LastOf(LogAt(m, t))))
    case Remove(t) => (m - {t}, Done)
  }

  class MemoryLogStore {
    var inner: Logs

    constructor ()
      ensures inner == map[]
    {
      inner := map[];
    }

    method Append(topic: Topic, entry: LogEntry, retention: Policy, now: int)
      modifies this
      ensures inner == MemAppend(old(inner), topic, entry, retention, now)
    {
      var g := if topic in inner then inner[topic] else [];
      g := Enforce(g + [entry], retention, now, Sender);
      inner := inner[topic := g];
    }

    method Range(topic: Topic, from: int, to: int) returns (r: seq<LogEntry>)
      ensures r == Filter(LogAt(inner, topic), InRange(from, to))
      ensures forall e :: e in r <==> e in LogAt(inner, topic) && from <= e.offset <= to
    {
      FilterMember(LogAt(inner, topic), InRange(from, to));
      r := [];
      if topic in inner {
        var log := inner[topic];
        for i := 0 to |log|
          invariant r == Filter(log[..i], InRange(from, to))
        {
          assert log[..i + 1][..i] == log[..i];
          if from <= log[i].offset <= to { r := r + [log[i]]; }
        }
        assert log[..|log|] == log;
      }
    }

    method Newest(topic: Topic) returns (r: Option<LogEntry>)
      ensures r == LastOf(LogAt(inner, topic))
      ensures r.Some? ==> var log := LogAt(inner, topic); log != [] && r.value == log[|log| - 1]
      ensures r.None? ==> topic !in inner || inner[topic] == []
    {
      if topic in inner && inner[topic] != [] {
        r := Some(inner[topic][|inner[topic]| - 1]);
      } else {
        r := None;
      }
    }

    method Remove(topic: Topic)
      modifies this
      ensures inner == old(inner) - {topic}
    {
      inner := inner - {topic};
    }
  }

  // ---- Sled-backed store --------------------------------------------------------

  function Stale(now: int, ms: nat): Entry<LogEntry> -> bool {
    (kv: Entry<LogEntry>) => now - Server.Birth(kv.value) > ms
  }

  function OtherThan(k: Key): Entry<LogEntry> -> bool {
    (kv: Entry<LogEntry>) => kv.key != k
  }

  /** The entries of a topic's scan that an append evicts from the tree. */
  function Evicted(all: seq<Entry<LogEntry>>, k: Key, policy: Policy, now: int): (r: seq<Entry<LogEntry>>) {
    match policy
    case Count(n) => if |all| > n then all[..|all| - n] else []
    case Ttl(ms) => Filter(all, Stale(now, ms))
    case Latest => Filter(all, OtherThan(k))
    case NoRetention => all
    case Size(_) => []
    case Durable => []
  }

  function SledAppend(tree: LogTree, t: Topic, e: LogEntry, policy: Policy, now: int): LogTree {
    var k := LogKey(t, e.offset);
    var written := Put(tree, k, e);
    Without(written, KeysOf(Evicted(ScanPrefix(written, TopicPrefix(t)), k, policy, now)))
  }

  function SledLog(tree: LogTree, t: Topic): seq<LogEntry> {
    ValuesOf(ScanPrefix(tree, TopicPrefix(t)))
  }

  /** Sorting by offset and popping the last entry: of equal offsets, the later entry wins. */
  function Greatest(entries: seq<LogEntry>): (r: Option<LogEntry>) {
    if entries == [] then None
    else
      var e, g := entries[|entries| - 1], Greatest(entries[..|entries| - 1]);
      if g.Some? && e.offset < g.value.offset then g else Some(e)
  }

  lemma {:induction false} GreatestIs(entries: seq<LogEntry>)
    ensures Greatest(entries).None? <==> entries == []
    ensures Greatest(entries).Some? ==>
      var g := Greatest(entries).value; g in entries && forall e :: e in entries ==> e.offset <= g.offset
  {
    if entries != [] {
      var n := |entries| - 1;
      GreatestIs(entries[..n]);
      assert entries == entries[..n] + [entries[n]];
    }
  }

  function SledApply(tree: LogTree, op: LogOp): (LogTree, LogAnswer) {
    match op
    case Append(t, e, policy, now) => (SledAppend(tree, t, e, policy, now), Done)
    case Range(t, from, to) => (tree, Entries(Filter(SledLog(tree, t), InRange(from, to))))
    case Newest(t) => (tree, Last(Greatest(SledLog(tree, t))))
    case Remove(t) => (Without(tree, KeysOf(ScanPrefix(tree, TopicPrefix(t)))), Done)
  }

  class SledLogStore {
    var tree: LogTree

    constructor (tree: LogTree)
      ensures this.tree == tree
    {
      this.tree := tree;
    }

    /** Delete the keys of a scan one at a time. */
    method DeleteAll(hits: seq<Entry<LogEntry>>)
      modifies this
      ensures tree == Without(old(tree), KeysOf(hits))
    {
      FilterAll(tree, KeyOutside([]));
      assert KeysOf(hits[..0]) == [];
      for i := 0 to |hits|
        invariant tree == Without(old(tree), KeysOf(hits[..i]))
      {
        tree := Without(tree, [hits[i].key]);
        WithoutMore(old(tree), KeysOf(hits[..i]), hits[i].key);
        assert KeysOf(hits[..i + 1]) == KeysOf(hits[..i]) + [hits[i].key];
      }
      assert hits[..|hits|] == hits;
    }

    method Append(topic: Topic, entry: LogEntry, retention: Policy, now: int)
      modifies this
      ensures tree == SledAppend(old(tree), topic, entry, retention, now)
    {
      var key := LogKey(topic, entry.offset);
      tree := Put(tree, key, entry);
      DeleteAll(Evicted(ScanPrefix(tree, TopicPrefix(topic)), key, retention, now));
    }

    method Range(topic: Topic, from: int, to: int) returns (r: seq<LogEntry>)
      ensures r == Filter(SledLog(tree, topic), InRange(from, to))
      ensures forall e :: e in r <==> e in SledLog(tree, topic) && from <= e.offset <= to
    {
      FilterMember(SledLog(tree, topic), InRange(from, to));
      r := Filter(ValuesOf(ScanPrefix(tree, TopicPrefix(topic))), InRange(from, to));
    }

    method Newest(topic: Topic) returns (r: Option<LogEntry>)
      ensures r == Greatest(SledLog(tree, topic))
      ensures r.None? <==> SledLog(tree, topic) == []
      ensures r.Some? ==>
        r.value in SledLog(tree, topic) && forall e :: e in SledLog(tree, topic) ==> e.offset <= r.value.offset
    {
      GreatestIs(SledLog(tree, topic));
      var entries := ValuesOf(ScanPrefix(tree, TopicPrefix(topic)));
      r := None;
      for i := 0 to |entries|
        invariant r == Greatest(entries[..i])
      {
        assert entries[..i + 1][..i] == entries[..i];
        if r == None || entries[i].offset >= r.value.offset {
          r := Some(entries[i]);
        }
      }
      assert entries[..|entries|] == entries;
    }

    method Remove(topic: Topic)
      modifies this
      ensures tree == Without(old(tree), KeysOf(ScanPrefix(old(tree), TopicPrefix(topic))))
    {
      DeleteAll(ScanPrefix(tree, TopicPrefix(topic)));
    }
  }

  // ---- Refinement ------------------------------------------------------------------

  function Filed(t: Topic): LogEntry -> Entry<LogEntry> {
    (e: LogEntry) => Entry(LogKey(t, e.offset), e)
  }

  /** Offsets are non-negative, increase along the log and stay below `bound`. */
  ghost predicate Ascending(log: seq<LogEntry>, bound: int) {
    log != [] ==>
      var e := log[|log| - 1];
      0 <= e.offset < bound && Ascending(log[..|log| - 1], e.offset)
  }

  lemma {:induction false} AscendingBelow(log: seq<LogEntry>, bound: int)
    requires Ascending(log, bound)
    ensures forall i :: 0 <= i < |log| ==> 0 <= log[i].offset < bound
    ensures forall b :: bound <= b ==> Ascending(log, b)
  {
    if log != [] {
      AscendingBelow(log[..|log| - 1], log[|log| - 1].offset);
    }
  }

  lemma {:induction false} AscendingOrder(log: seq<LogEntry>, bound: int, i: nat, j: nat)
    requires Ascending(log, bound) && i < j < |log|
    ensures log[i].offset < log[j].offset
  {
    var n := |log| - 1;
    if j == n {
      AscendingBelow(log[..n], log[n].offset);
      assert log[..n][i] == log[i];
    } else {
      AscendingOrder(log[..n], log[n].offset, i, j);
    }
  }

  lemma {:induction false} AscendingSnoc(log: seq<LogEntry>, e: LogEntry)
    requires NextOffset(log, e)
    ensures Ascending(log + [e], TWO_63)
  {
    assert (log + [e])[..|log|] == log;
  }

  lemma {:induction false} AscendingSuffix(log: seq<LogEntry>, bound: int, d: nat)
    requires Ascending(log, bound) && d <= |log|
    ensures Ascending(log[d..], bound)
  {
    var n := |log| - 1;
    if d <= n {
      AscendingSuffix(log[..n], log[n].offset, d);
      assert log[d..][..|log[d..]| - 1] == log[..n][d..];
    }
  }

  /** Topic `t` of the tree holds exactly `log`, filed under its keys. */
  ghost predicate Holds(tree: LogTree, t: Topic, log: seq<LogEntry>) {
    ScanPrefix(tree, TopicPrefix(t)) == Map(log, Filed(t)) && Ascending(log, TWO_63)
  }

  ghost predicate Represents(tree: LogTree, m: Logs) {
    && Sorted(tree)
    && forall t :: NulFree(t) ==> Holds(tree, t, LogAt(m, t))
  }

  /** What a caller must respect for the two stores to agree on one more append. */
  ghost predicate Agreeable(log: seq<LogEntry>, e: LogEntry, policy: Policy, now: int) {
    match policy
    case Size(maxBytes) => TotalBytes(log + [e]) <= maxBytes
    case Ttl(ms) => forall x :: x in log + [e] ==> Alive(now, ms, Server)(x) == Alive(now, ms, Sender)(x)
    case _ => true
  }

  /** The entry's offset exceeds every offset that the log still holds. */
  ghost predicate NextOffset(log: seq<LogEntry>, e: LogEntry) {
    e.offset >= 0 && Ascending(log, e.offset)
  }

  ghost predicate Allowed(m: Logs, op: LogOp) {
    && NulFree(op.topic)
    && (op.Append? ==> NextOffset(LogAt(m, op.topic), op.entry)
                       && Agreeable(LogAt(m, op.topic), op.entry, op.retention, op.now))
  }

  lemma {:induction false} FiledSorted(t: Topic, log: seq<LogEntry>)
    requires Ascending(log, TWO_63)
    ensures Sorted(Map(log, Filed(t)))
  {
    AscendingBelow(log, TWO_63);
    forall i, j | 0 <= i < j < |log| ensures Less(LogKey(t, log[i].offset), LogKey(t, log[j].offset)) {
      AscendingOrder(log, TWO_63, i, j);
      LogKeyOrder(t, log[i].offset, log[j].offset);
    }
  }

  lemma {:induction false} FilterAscending(log: seq<LogEntry>, bound: int, p: LogEntry -> bool)
    requires Ascending(log, bound)
    ensures Ascending(Filter(log, p), bound)
  {
    if log != [] {
      var n := |log| - 1;
      FilterAscending(log[..n], log[n].offset, p);
      AscendingBelow(Filter(log[..n], p), log[n].offset);
      assert p(log[n]) ==> Filter(log, p)[..|Filter(log, p)| - 1] == Filter(log[..n], p);
    }
  }

  /** Writing the next offset of a topic appends to its scan and to no other. */
  lemma {:induction false} WriteAppends(tree: LogTree, t: Topic, log: seq<LogEntry>, e: LogEntry)
    requires Sorted(tree) && NulFree(t) && Holds(tree, t, log) && NextOffset(log, e)
    ensures var written := Put(tree, LogKey(t, e.offset), e);
      && Sorted(written)
      && Holds(written, t, log + [e])
      && forall u :: NulFree(u) && u != t ==>
           ScanPrefix(written, TopicPrefix(u)) == ScanPrefix(tree, TopicPrefix(u))
  {
    var k := LogKey(t, e.offset);
    PutSorted(tree, k, e);
    ScanPut(tree, k, e, TopicPrefix(t));
    LogPrefixIsolates(t, t, e.offset);
    if log != [] {
      LogKeyOrder(t, log[|log| - 1].offset, e.offset);
    }
    PutLast(Map(log, Filed(t)), k, e);
    assert Map(log, Filed(t)) + [Entry(k, e)] == Map(log + [e], Filed(t));
    AscendingSnoc(log, e);
    forall u | NulFree(u) && u != t
      ensures ScanPrefix(Put(tree, k, e), TopicPrefix(u)) == ScanPrefix(tree, TopicPrefix(u))
    {
      ScanPut(tree, k, e, TopicPrefix(u));
      LogPrefixIsolates(u, t, e.offset);
    }
  }

  /** Evicting from the scan of a topic leaves the scans of other topics alone. */
  lemma {:induction false} EvictElsewhere(tree: LogTree, t: Topic, log: seq<LogEntry>, hits: seq<Entry<LogEntry>>,
                                          u: Topic, other: seq<LogEntry>)
    requires NulFree(t) && NulFree(u) && u != t && Holds(tree, t, log) && Holds(tree, u, other)
    requires forall i :: 0 <= i < |hits| ==> hits[i] in ScanPrefix(tree, TopicPrefix(t))
    ensures Holds(Without(tree, KeysOf(hits)), u, other)
  {
    var ks, scan := KeysOf(hits), ScanPrefix(tree, TopicPrefix(u));
    ScanWithout(tree, ks, TopicPrefix(u));
    forall kv | kv in scan ensures kv.key !in ks {
      var i :| 0 <= i < |other| && scan[i] == kv;
      LogPrefixIsolates(t, u, other[i].offset);
      forall j | 0 <= j < |ks| ensures ks[j] != kv.key {
        FilterMember(tree, HasPrefix(TopicPrefix(t)));
        var at := ScanPrefix(tree, TopicPrefix(t));
        assert hits[j] in at;
        var x :| 0 <= x < |at| && at[x] == hits[j];
      }
    }
    FilterAll(scan, KeyOutside(ks));
  }

  lemma {:induction false} EvictFirst(t: Topic, all: seq<LogEntry>, d: nat)
    requires Ascending(all, TWO_63) && d <= |all|
    ensures Without(Map(all, Filed(t)), KeysOf(Map(all, Filed(t))[..d])) == Map(all[d..], Filed(t))
  {
    var scan := Map(all, Filed(t));
    FiledSorted(t, all);
    WithoutFirst(scan, d);
    assert scan[d..] == Map(all[d..], Filed(t));
  }

  lemma {:induction false} EvictNothing(scan: seq<Entry<LogEntry>>)
    ensures Without(scan, KeysOf<LogEntry>([])) == scan
  {
    FilterAll(scan, KeyOutside(KeysOf<LogEntry>([])));
  }

  lemma {:induction false} EvictCount(t: Topic, all: seq<LogEntry>, n: nat, k: Key, now: int)
    requires Ascending(all, TWO_63)
    ensures var scan := Map(all, Filed(t));
      Without(scan, KeysOf(Evicted(scan, k, Count(n), now))) == Map(LastN(all, n), Filed(t))
  {
    hide Without, KeysOf, Filed, Ascending;
    var scan := Map(all, Filed(t));
    if |all| > n {
      assert Evicted(scan, k, Count(n), now) == scan[..|all| - n];
      EvictFirst(t, all, |all| - n);
    } else {
      EvictNothing(scan);
    }
  }

  lemma {:induction false} EvictAll(t: Topic, all: seq<LogEntry>)
    requires Ascending(all, TWO_63)
    ensures Without(Map(all, Filed(t)), KeysOf(Map(all, Filed(t)))) == []
  {
    var scan := Map(all, Filed(t));
    EvictFirst(t, all, |all|);
    assert scan[..|all|] == scan;
  }

  lemma {:induction false} EvictStale(t: Topic, all: seq<LogEntry>, ms: nat, now: int)
    requires Ascending(all, TWO_63)
    ensures var scan := Map(all, Filed(t));
      Without(scan, KeysOf(Filter(scan, Stale(now, ms)))) == Map(Filter(all, Alive(now, ms, Server)), Filed(t))
  {
    FiledSorted(t, all);
    WithoutMatching(Map(all, Filed(t)), Stale(now, ms), AliveFiled(now, ms));
    FilterMap(all, Filed(t), AliveFiled(now, ms), Alive(now, ms, Server));
  }

  lemma {:induction false} EvictOthers(t: Topic, all: seq<LogEntry>, offset: i64)
    requires NulFree(t) && Ascending(all, TWO_63)
    ensures var scan := Map(all, Filed(t));
      Without(scan, KeysOf(Filter(scan, OtherThan(LogKey(t, offset))))) == Map(Filter(all, AtOffset(offset)), Filed(t))
  {
    var scan, k := Map(all, Filed(t)), LogKey(t, offset);
    FiledSorted(t, all);
    WithoutMatching(scan, OtherThan(k), SameAs(k));
    forall e | e in all ensures SameAs(k)(Filed(t)(e)) == AtOffset(offset)(e) {
      if LogKey(t, e.offset) == k { LogKeyInjective(t, e.offset, t, offset); }
    }
    FilterMap(all, Filed(t), SameAs(k), AtOffset(offset));
  }

  /** What the sled store keeps of a topic when it has just appended the last entry of `all`. */
  function SledKept(all: seq<LogEntry>, policy: Policy, now: int): seq<LogEntry>
    requires all != []
  {
    if policy.Size? then all else Evict(all, policy, now, Server)
  }

  lemma {:induction false} EvictAscending(all: seq<LogEntry>, bound: int, policy: Policy, now: int, clock: Clock)
    requires all != [] && Ascending(all, bound)
    ensures Ascending(Evict(all, policy, now, clock), bound)
  {
    var kept := Evict(all, policy, now, clock);
    if policy.Ttl? {
      FilterAscending(all, bound, Alive(now, policy.ms, clock));
    } else if policy.Latest? {
      FilterAscending(all, bound, AtOffset(all[|all| - 1].offset));
    } else if policy.Count? || policy.Size? {
      assert IsSuffix(kept, all);
      AscendingSuffix(all, bound, |all| - |kept|);
    }
  }

  lemma {:induction false} KeptAscending(all: seq<LogEntry>, policy: Policy, now: int)
    requires all != [] && Ascending(all, TWO_63)
    ensures Ascending(SledKept(all, policy, now), TWO_63)
  {
    EvictAscending(all, TWO_63, policy, now, Server);
  }

  /** What the tree keeps of a topic after the eviction of one append. */
  lemma {:induction false} EvictHere(t: Topic, all: seq<LogEntry>, policy: Policy, now: int)
    requires NulFree(t) && all != [] && Ascending(all, TWO_63)
    ensures var scan := Map(all, Filed(t));
      Without(scan, KeysOf(Evicted(scan, LogKey(t, all[|all| - 1].offset), policy, now))) ==
      Map(SledKept(all, policy, now), Filed(t))
  {
    if policy.Count? {
      EvictCount(t, all, policy.n, LogKey(t, all[|all| - 1].offset), now);
    } else if policy.NoRetention? {
      EvictAll(t, all);
    } else if policy.Ttl? {
      EvictStale(t, all, policy.ms, now);
    } else if policy.Latest? {
      EvictOthers(t, all, all[|all| - 1].offset);
    } else {
      EvictNothing(Map(all, Filed(t)));
    }
  }

  function AliveFiled(now: int, ms: nat): Entry<LogEntry> -> bool {
    (kv: Entry<LogEntry>) => now - Server.Birth(kv.value) <= ms
  }

  function SameAs(k: Key): Entry<LogEntry> -> bool {
    (kv: Entry<LogEntry>) => kv.key == k
  }

  /** After one append a topic of the tree holds what the sled store's own eviction keeps. */
  lemma {:induction false} SledAppendHolds(tree: LogTree, t: Topic, log: seq<LogEntry>, e: LogEntry,
                                           policy: Policy, now: int)
    requires Sorted(tree) && NulFree(t) && Holds(tree, t, log) && NextOffset(log, e)
    ensures Sorted(SledAppend(tree, t, e, policy, now))
    ensures Holds(SledAppend(tree, t, e, policy, now), t,
                  SledKept(log + [e], policy, now))
    ensures forall u, other :: NulFree(u) && u != t && Holds(tree, u, other) ==>
              Holds(SledAppend(tree, t, e, policy, now), u, other)
  {
    var k, p := LogKey(t, e.offset), TopicPrefix(t);
    var written := Put(tree, k, e);
    WriteAppends(tree, t, log, e);
    var scan := ScanPrefix(written, p);
    var hits := Evicted(scan, k, policy, now);
    EvictHere(t, log + [e], policy, now);
    KeptAscending(log + [e], policy, now);
    ScanWithout(written, KeysOf(hits), p);
    FilterSorted(written, KeyOutside(KeysOf(hits)));
    EvictedMembers(scan, k, policy, now);
    forall u, other | NulFree(u) && u != t && Holds(tree, u, other)
      ensures Holds(SledAppend(tree, t, e, policy, now), u, other)
    {
      EvictElsewhere(written, t, log + [e], hits, u, other);
    }
  }

  lemma {:induction false} EvictedMembers(all: seq<Entry<LogEntry>>, k: Key, policy: Policy, now: int)
    ensures var hits := Evicted(all, k, policy, now);
            forall i :: 0 <= i < |hits| ==> hits[i] in all
  {
    match policy
    case Ttl(ms) => FilterMember(all, Stale(now, ms));
    case Latest => FilterMember(all, OtherThan(k));
    case _ =>
  }

  lemma {:induction false} FiledValues(tree: LogTree, t: Topic, log: seq<LogEntry>)
    requires Holds(tree, t, log)
    ensures SledLog(tree, t) == log
  {
  }

  lemma {:induction false} FiltersAgreeExactlyWhen(all: seq<LogEntry>, p: LogEntry -> bool, q: LogEntry -> bool)
    ensures Filter(all, p) == Filter(all, q) <==> forall x :: x in all ==> p(x) == q(x)
  {
    if forall x :: x in all ==> p(x) == q(x) {
      FilterAgree(all, p, q);
    } else {
      FilterMember(all, p);
      FilterMember(all, q);
      var x :| x in all && p(x) != q(x);
      assert x in Filter(all, p) <==> p(x);
      assert x in Filter(all, q) <==> q(x);
    }
  }

  lemma {:induction false} KeptAgreesExactlyWhen(log: seq<LogEntry>, e: LogEntry, policy: Policy, now: int)
    ensures SledKept(log + [e], policy, now) == Evict(log + [e], policy, now, Sender) <==>
            Agreeable(log, e, policy, now)
  {
    var all := log + [e];
    if policy.Ttl? {
      FiltersAgreeExactlyWhen(all, Alive(now, policy.ms, Server), Alive(now, policy.ms, Sender));
    } else if policy.Size? {
      assert all[0..] == all;
    }
  }

  /**
   The stores agree after an append exactly when the caller's retention does not
   expose a difference between them: Size is never enforced by the sled store,
   and its Ttl prefers the broker's stamp to the publisher's timestamp.
   */
  lemma {:induction false} AppendAgreesExactlyWhen(tree: LogTree, t: Topic, log: seq<LogEntry>, e: LogEntry,
                                                   policy: Policy, now: int)
    requires Sorted(tree) && NulFree(t) && Holds(tree, t, log) && NextOffset(log, e)
    ensures SledLog(SledAppend(tree, t, e, policy, now), t) == Evict(log + [e], policy, now, Sender)
       <==> Agreeable(log, e, policy, now)
  {
    hide SledAppend, SledKept, Evict, Agreeable;
    SledAppendHolds(tree, t, log, e, policy, now);
    FiledValues(SledAppend(tree, t, e, policy, now), t, SledKept(log + [e], policy, now));
    KeptAgreesExactlyWhen(log, e, policy, now);
  }

  /** Size(0): the memory store keeps nothing of a one-byte message, the sled store keeps it. */
  lemma {:induction false} SizeStoresDiffer(t: Topic, e: LogEntry, now: int)
    requires NulFree(t) && e.offset >= 0 && |e.payload| == 1
    ensures Evict([] + [e], Size(0), now, Sender) == []
    ensures SledLog(SledAppend([], t, e, Size(0), now), t) == [e]
  {
    hide SledAppend, Filter;
    EmptyRepresents();
    assert Holds([], t, LogAt(map[], t));
    SledAppendHolds([], t, [], e, Size(0), now);
    FiledValues(SledAppend([], t, e, Size(0), now), t, [e]);
    assert [] + [e] == [e] && [e][1..] == [];
  }

  /** Ttl: an old message that the broker stamped just now is kept by the sled store alone. */
  lemma {:induction false} TtlStoresDiffer(t: Topic, e: LogEntry, ms: nat, now: int)
    requires NulFree(t) && e.offset >= 0 && e.appendedAt == Some(now) && now - e.timestamp > ms
    ensures SledLog(SledAppend([], t, e, Ttl(ms), now), t) != Evict([] + [e], Ttl(ms), now, Sender)
  {
    hide SledAppend, Evict;
    EmptyRepresents();
    assert Holds([], t, LogAt(map[], t));
    AppendAgreesExactlyWhen([], t, [], e, Ttl(ms), now);
    assert e in [] + [e];
  }

  lemma {:induction false} AppendHoldsEverywhere(tree: LogTree, m: Logs, t: Topic, e: LogEntry,
                                                 policy: Policy, now: int, u: Topic)
    requires Sorted(tree) && Allowed(m, Append(t, e, policy, now)) && NulFree(u)
    requires Holds(tree, t, LogAt(m, t)) && Holds(tree, u, LogAt(m, u))
    ensures Holds(SledAppend(tree, t, e, policy, now), u, LogAt(MemAppend(m, t, e, policy, now), u))
  {
    var log, tree' := LogAt(m, t), SledAppend(tree, t, e, policy, now);
    SledAppendHolds(tree, t, log, e, policy, now);
    if u == t {
      AppendAgreesExactlyWhen(tree, t, log, e, policy, now);
      FiledValues(tree', t, SledKept(log + [e], policy, now));
    }
  }

  lemma {:induction false} AppendRefines(tree: LogTree, m: Logs, t: Topic, e: LogEntry, policy: Policy, now: int)
    requires Represents(tree, m) && Allowed(m, Append(t, e, policy, now))
    ensures Represents(SledAppend(tree, t, e, policy, now), MemAppend(m, t, e, policy, now))
  {
    SledAppendHolds(tree, t, LogAt(m, t), e, policy, now);
    var tree', m' := SledAppend(tree, t, e, policy, now), MemAppend(m, t, e, policy, now);
    forall u | NulFree(u) ensures Holds(tree', u, LogAt(m', u)) {
      AppendHoldsEverywhere(tree, m, t, e, policy, now, u);
    }
  }

  lemma {:induction false} RemoveRefines(tree: LogTree, m: Logs, t: Topic)
    requires Represents(tree, m) && NulFree(t)
    ensures Represents(Without(tree, KeysOf(ScanPrefix(tree, TopicPrefix(t)))), m - {t})
  {
    var scan := ScanPrefix(tree, TopicPrefix(t));
    var tree' := Without(tree, KeysOf(scan));
    FilterSorted(tree, KeyOutside(KeysOf(scan)));
    forall u | NulFree(u) ensures Holds(tree', u, LogAt(m - {t}, u)) {
      RemoveHolds(tree, m, t, u);
    }
  }

  lemma {:induction false} RemoveHolds(tree: LogTree, m: Logs, t: Topic, u: Topic)
    requires NulFree(t) && NulFree(u) && Holds(tree, t, LogAt(m, t)) && Holds(tree, u, LogAt(m, u))
    ensures Holds(Without(tree, KeysOf(ScanPrefix(tree, TopicPrefix(t)))), u, LogAt(m - {t}, u))
  {
    var scan := ScanPrefix(tree, TopicPrefix(t));
    if u == t {
      ScanWithout(tree, KeysOf(scan), TopicPrefix(t));
      EvictAll(t, LogAt(m, t));
      assert Map([], Filed(t)) == [];
    } else {
      EvictElsewhere(tree, t, LogAt(m, t), scan, u, LogAt(m, u));
    }
  }

  lemma {:induction false} GreatestOfAscending(log: seq<LogEntry>, bound: int)
    requires Ascending(log, bound)
    ensures Greatest(log) == LastOf(log)
  {
    if |log| > 1 {
      var n := |log| - 1;
      GreatestOfAscending(log[..n], log[n].offset);
    }
  }

  /** One operation: identical answers, and the states still correspond. */
  lemma {:induction false} StepRefines(tree: LogTree, m: Logs, op: LogOp)
    requires Represents(tree, m) && Allowed(m, op)
    ensures SledApply(tree, op).1 == MemApply(m, op).1
    ensures Represents(SledApply(tree, op).0, MemApply(m, op).0)
  {
    var t := op.topic;
    assert Holds(tree, t, LogAt(m, t));
    FiledValues(tree, t, LogAt(m, t));
    if op.Append? {
      AppendRefines(tree, m, t, op.entry, op.retention, op.now);
    } else if op.Newest? {
      GreatestOfAscending(LogAt(m, t), TWO_63);
    } else if op.Remove? {
      RemoveRefines(tree, m, t);
    }
  }

  // ---- Whole runs ---------------------------------------------------------------------

  function MemRun(ops: seq<LogOp>): (Logs, seq<LogAnswer>) {
    if ops == [] then (map[], [])
    else
      var (m, answers) := MemRun(ops[..|ops| - 1]);
      var (m', a) := MemApply(m, ops[|ops| - 1]);
      (m', answers + [a])
  }

  function SledRun(ops: seq<LogOp>): (LogTree, seq<LogAnswer>) {
    if ops == [] then ([], [])
    else
      var (tree, answers) := SledRun(ops[..|ops| - 1]);
      var (tree', a) := SledApply(tree, ops[|ops| - 1]);
      (tree', answers + [a])
  }

  /** Every operation respects the discipline in the state that it meets. */
  ghost predicate Disciplined(ops: seq<LogOp>) {
    ops != [] ==> Disciplined(ops[..|ops| - 1]) && Allowed(MemRun(ops[..|ops| - 1]).0, ops[|ops| - 1])
  }

  /**
   Over every disciplined run from empty stores, whatever mix of topics and
   policies, the sled log store returns exactly what the in-memory one returns.
   */
  lemma {:induction false} SledRefinesMemory(ops: seq<LogOp>)
    requires Disciplined(ops)
    ensures SledRun(ops).1 == MemRun(ops).1
    ensures Represents(SledRun(ops).0, MemRun(ops).0)
  {
    if ops == [] {
      EmptyRepresents();
    } else {
      var n := |ops| - 1;
      SledRefinesMemory(ops[..n]);
      StepRefines(SledRun(ops[..n]).0, MemRun(ops[..n]).0, ops[n]);
    }
  }

  lemma {:induction false} EmptyRepresents()
    ensures Represents([], map[])
  {
    forall t | NulFree(t) ensures Holds([], t, []) {
      assert Map([], Filed(t)) == [];
    }
  }

  /** Over every disciplined run, removing a topic empties its log in both stores and leaves the others alone. */
  lemma {:induction false} RemovedTopicIsEmpty(ops: seq<LogOp>, t: Topic, u: Topic)
    requires Disciplined(ops) && NulFree(t) && NulFree(u)
    ensures var tree, m := SledRun(ops + [Remove(t)]).0, MemRun(ops + [Remove(t)]).0;
      && LogAt(m, t) == [] && SledLog(tree, t) == []
      && (u != t ==> LogAt(m, u) == LogAt(MemRun(ops).0, u) == SledLog(tree, u))
  {
    var all := ops + [Remove(t)];
    assert all[..|ops|] == ops;
    SledRefinesMemory(all);
    var tree, m := SledRun(all).0, MemRun(all).0;
    hide SledRun, Filter;
    assert Holds(tree, t, LogAt(m, t)) && Holds(tree, u, LogAt(m, u));
    FiledValues(tree, t, LogAt(m, t));
    FiledValues(tree, u, LogAt(m, u));
  }
}
