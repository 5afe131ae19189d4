/**
 Message deduplication within a time window: the in-memory store, the sled
 store, sweeping, and their agreement over every run.
 */
module DedupeStore {
  import opened Sequences
  import opened Bytes
  import opened Keys
  import opened SledTree

  type MessageKey = (Topic, bytes)
  type Expiries = map<MessageKey, int>
  type DedupeTree = Tree<bytes>

  datatype DedupeOp = Check(key: MessageKey, now: int, window: nat) | Sweep(now: int)

  /** The expiry of one key after a check, and whether the message was fresh. */
  function CheckCell(cell: Option<int>, now: int, window: nat): (int, bool) {
    match cell
    case None => (now + window, true)
    case Some(expires) => if expires > now then (expires, false) else (now + window, true)
  }

  function CellOf(m: Expiries, k: MessageKey): Option<int> {
    if k in m then Some(m[k]) else None
  }

  // ---- Memory-backed store -----------------------------------------------------

  function MemCheck(m: Expiries, k: MessageKey, now: int, window: nat): (Expiries, bool) {
    var (expires, isNew) := CheckCell(CellOf(m, k), now, window);
    (m[k := expires], isNew)
  }

  function Expired(m: Expiries, now: int): set<MessageKey> {
    set k | k in m && m[k] <= now
  }

  function MemSweep(m: Expiries, now: int): (Expiries, nat) {
    (m - Expired(m, now), |Expired(m, now)|)
  }

  class MemoryDedupeStore {
    var inner: Expiries

    constructor ()
      ensures inner == map[]
    {
      inner := map[];
    }

    method CheckAndRecord(topic: Topic, key: bytes, window: nat, now: int) returns (isNew: bool)
      modifies this
      ensures (inner, isNew) == MemCheck(old(inner), (topic, key), now, window)
    {
      var expires := now + window;
      var k := (topic, key);
      isNew := false;
      if k in inner {
        if inner[k] <= now {
          inner := inner[k := expires];
          isNew := true;
        }
      } else {
        isNew := true;
        inner := inner[k := expires];
      }
      assert inner == MemCheck(old(inner), k, now, window).0;
    }

    method Sweep(now: int) returns (removed: nat)
      modifies this
      ensures (inner, removed) == MemSweep(old(inner), now)
      ensures forall k :: k in inner <==> k in old(inner) && old(inner)[k] > now
    {
      var expired := Expired(inner, now);
      removed := 0;
      while expired != {}
        invariant expired <= Expired(old(inner), now)
        invariant inner == old(inner) - (Expired(old(inner), now) - expired)
        invariant removed + |expired| == |Expired(old(inner), now)|
        decreases |expired|
      {
        var k :| k in expired;
        expired := expired - {k};
        if k in inner {
          inner := inner - {k};
          removed := removed + 1;
        }
      }
      assert Expired(old(inner), now) - {} == Expired(old(inner), now);
    }
  }

  // ---- Sweeping is invisible ------------------------------------------------------

  function MemApply(m: Expiries, op: DedupeOp): Expiries {
    match op
    case Check(k, now, window) => MemCheck(m, k, now, window).0
    case Sweep(now) => MemSweep(m, now).0
  }

  function MemRun(ops: seq<DedupeOp>): Expiries {
    if ops == [] then map[] else MemApply(MemRun(ops[..|ops| - 1]), ops[|ops| - 1])
  }

  /** The answers to the checks of a run, in order. */
  function Verdicts(ops: seq<DedupeOp>): seq<bool> {
    if ops == [] then []
    else
      var n := |ops| - 1;
      match ops[n]
      case Check(k, now, window) => Verdicts(ops[..n]) + [MemCheck(MemRun(ops[..n]), k, now, window).1]
      case Sweep(_) => Verdicts(ops[..n])
  }

  function IsCheck(): DedupeOp -> bool { (op: DedupeOp) => op.Check? }

  /** Sweeps do not run ahead of the clock that later checks read. */
  ghost predicate SweepsKeepTime(ops: seq<DedupeOp>) {
    forall i, j :: 0 <= i < j < |ops| && ops[i].Sweep? && ops[j].Check? ==> ops[i].now <= ops[j].now
  }

  /** `full` is `swept` plus entries that have expired by `now`. */
  ghost predicate SweptFrom(swept: Expiries, full: Expiries, now: int) {
    && swept.Keys <= full.Keys
    && (forall k :: k in swept ==> swept[k] == full[k])
    && (forall k :: k in full && k !in swept ==> full[k] <= now)
  }

  lemma {:induction false} NothingSwept(bound: int)
    ensures SweptFrom(map[], map[], bound)
  {
  }

  lemma {:induction false} CheckSnoc(ops: seq<DedupeOp>, op: DedupeOp)
    requires op.Check?
    ensures MemRun(ops + [op]) == MemCheck(MemRun(ops), op.key, op.now, op.window).0
    ensures Verdicts(ops + [op]) == Verdicts(ops) + [MemCheck(MemRun(ops), op.key, op.now, op.window).1]
  {
    assert (ops + [op])[..|ops|] == ops;
  }

  /** A check whose clock has passed what was swept cannot tell the difference. */
  lemma {:induction false} CheckUnswept(swept: Expiries, full: Expiries, before: int, bound: int,
                                        k: MessageKey, now: int, window: nat)
    requires SweptFrom(swept, full, before) && before <= now && before <= bound
    ensures MemCheck(swept, k, now, window).1 == MemCheck(full, k, now, window).1
    ensures SweptFrom(MemCheck(swept, k, now, window).0, MemCheck(full, k, now, window).0, bound)
  {
  }

  lemma {:induction false} SweepUnswept(swept: Expiries, full: Expiries, bound: int, now: int)
    requires SweptFrom(swept, full, bound) && now <= bound
    ensures SweptFrom(MemSweep(swept, now).0, full, bound)
  {
  }

  /** `bound` is no earlier than any sweep. */
  lemma {:induction false} SweepsAreInvisibleFrom(ops: seq<DedupeOp>, bound: int)
    requires SweepsKeepTime(ops)
    requires forall i :: 0 <= i < |ops| && ops[i].Sweep? ==> ops[i].now <= bound
    ensures Verdicts(ops) == Verdicts(Filter(ops, IsCheck()))
    ensures SweptFrom(MemRun(ops), MemRun(Filter(ops, IsCheck())), bound)
  {
    hide MemCheck, MemSweep, SweptFrom;
    if ops == [] {
      NothingSwept(bound);
    } else {
      var n := |ops| - 1;
      var op, before := ops[n], if ops[n].Check? && ops[n].now < bound then ops[n].now else bound;
      SweepsAreInvisibleFrom(ops[..n], before);
      var swept, full := MemRun(ops[..n]), MemRun(Filter(ops[..n], IsCheck()));
      if op.Check? {
        CheckUnswept(swept, full, before, bound, op.key, op.now, op.window);
        CheckSnoc(Filter(ops[..n], IsCheck()), op);
      } else {
        SweepUnswept(swept, full, bound, op.now);
      }
    }
  }

  function LatestSweep(ops: seq<DedupeOp>): (r: int)
    ensures forall i :: 0 <= i < |ops| && ops[i].Sweep? ==> ops[i].now <= r
  {
    if ops == [] then 0
    else
      var n := |ops| - 1;
      var r := LatestSweep(ops[..n]);
      if ops[n].Sweep? && ops[n].now > r then ops[n].now else r
  }

  /** Taking every sweep out of a run changes no answer. */
  lemma {:induction false} SweepsAreInvisible(ops: seq<DedupeOp>)
    requires SweepsKeepTime(ops)
    ensures Verdicts(ops) == Verdicts(Filter(ops, IsCheck()))
  {
    SweepsAreInvisibleFrom(ops, LatestSweep(ops));
  }

  // ---- Sled-backed store -------------------------------------------------------------

  function Decode(v: bytes): Option<int> {
    if |v| >= 8 then Some(I64FromBytes(v[..8])) else None
  }

  function SepPos(k: Key): (i: nat)
    ensures i <= |k|
    ensures NulFree(k[..i])
    ensures i < |k| ==> k[i] == SEP
  {
    if k == [] || k[0] == SEP then 0
    else
      var i := SepPos(k[1..]);
      assert k[..i + 1] == [k[0]] + k[1..][..i];
      i + 1
  }

  function TopicOf(k: Key): Topic { k[..SepPos(k)] }

  ghost predicate IsDedupeKey(k: Key) {
    SepPos(k) + 1 < |k| && k[|k| - 1] == SEP
  }

  /** The message that a key was built from. */
  function MessageOf(k: Key): MessageKey {
    if SepPos(k) + 1 < |k| then (TopicOf(k), k[SepPos(k) + 1..|k| - 1]) else (TopicOf(k), [])
  }

  ghost predicate WellFormed(tree: DedupeTree) {
    forall i :: 0 <= i < |tree| ==> IsDedupeKey(tree[i].key) && |tree[i].value| == 8
  }

  function Lapsed(now: int): Entry<bytes> -> bool {
    (e: Entry<bytes>) => |e.value| >= 8 && I64FromBytes(e.value[..8]) <= now
  }

  function Live(now: int): Entry<bytes> -> bool {
    (e: Entry<bytes>) => !Lapsed(now)(e)
  }

  function SledCheck(tree: DedupeTree, k: MessageKey, now: int, window: nat): (DedupeTree, bool)
    requires -TWO_63 <= now + window < TWO_63
  {
    var key := DedupeKey(k.0, k.1);
    var prev := match Get(tree, key) case None => None case Some(v) => Decode(v);
    if prev.Some? && prev.value > now then (tree, false)
    else (Put(tree, key, I64ToBytes(now + window)), true)
  }

  function SledSweep(tree: DedupeTree, now: int): (DedupeTree, nat) {
    (Filter(tree, Live(now)), |Filter(tree, Lapsed(now))|)
  }

  class SledDedupeStore {
    var tree: DedupeTree

    constructor (tree: DedupeTree)
      ensures this.tree == tree
    {
      this.tree := tree;
    }

    /**
     One pass of the compare-and-swap loop, with nobody in between. The store
     itself writes nothing shorter than 8 bytes; on such a value the loop would
     never end.
     */
    method CheckAndRecord(topic: Topic, key: bytes, window: nat, now: int) returns (isNew: bool)
      requires -TWO_63 <= now + window < TWO_63
      requires Get(tree, DedupeKey(topic, key)).Some? ==> |Get(tree, DedupeKey(topic, key)).value| >= 8
      modifies this
      ensures (tree, isNew) == SledCheck(old(tree), (topic, key), now, window)
    {
      var k := DedupeKey(topic, key);
      var current := Get(tree, k);
      if current.Some? && |current.value| >= 8 && I64FromBytes(current.value[..8]) > now {
        return false;
      }
      tree := Put(tree, k, I64ToBytes(now + window));
      isNew := true;
    }

    method TopicsOf() returns (topics: set<Topic>)
      requires WellFormed(tree)
      ensures CoversTopics(tree, topics)
      ensures forall t :: t in topics ==> NulFree(t)
    {
      topics := {};
      for i := 0 to |tree|
        invariant forall j :: 0 <= j < i ==> TopicOf(tree[j].key) in topics
        invariant forall t :: t in topics ==> NulFree(t)
      {
        var sep := SepPos(tree[i].key);
        if sep < |tree[i].key| {
          topics := topics + {tree[i].key[..sep]};
        }
      }
    }

    /** Topic by topic, in any order, delete the expired entries and count them. */
    method Sweep(now: int) returns (total: nat)
      requires Sorted(tree) && WellFormed(tree)
      modifies this
      ensures (tree, total) == SledSweep(old(tree), now)
    {
      var topics := TopicsOf();
      ghost var all, done := tree, {};
      total := 0;
      FilterAll(all, Spared(now, {}));
      FilterNone(all, Swept(now, {}));
      while topics != {}
        invariant topics !! done && CoversTopics(all, topics + done)
        invariant forall t :: t in topics ==> NulFree(t)
        invariant SweptSoFar(all, now, done, tree, total)
        decreases |topics|
      {
        var t :| t in topics;
        topics := topics - {t};
        SweepTopic(all, tree, now, done, t);
        var expired := KeysOf(Filter(ScanPrefix(tree, TopicPrefix(t)), Lapsed(now)));
        tree := Without(tree, expired);
        total := total + |expired|;
        done := done + {t};
      }
      EverythingSwept(all, now, topics + done);
    }
  }

  // ---- Sweeping topic by topic ---------------------------------------------------------

  /** The entries that a sweep of `topics` removes. */
  function Swept(now: int, topics: set<Topic>): Entry<bytes> -> bool {
    (e: Entry<bytes>) => Lapsed(now)(e) && TopicOf(e.key) in topics
  }

  function Spared(now: int, topics: set<Topic>): Entry<bytes> -> bool {
    (e: Entry<bytes>) => !(Lapsed(now)(e) && TopicOf(e.key) in topics)
  }

  ghost predicate CoversTopics(tree: DedupeTree, topics: set<Topic>) {
    forall i :: 0 <= i < |tree| ==> TopicOf(tree[i].key) in topics
  }

  ghost predicate SweptSoFar(all: DedupeTree, now: int, done: set<Topic>, tree: DedupeTree, total: nat) {
    tree == Filter(all, Spared(now, done)) && total == |Filter(all, Swept(now, done))|
  }

  lemma {:induction false} PrefixAt(k: Key, i: nat, t: Topic)
    requires NulFree(t) && i < |k| && k[i] == SEP && NulFree(k[..i])
    ensures TopicPrefix(t) <= k <==> k[..i] == t
  {
    assert k[..i + 1] == TopicPrefix(k[..i]);
    if TopicPrefix(t) <= k {
      assert k[|t|] == TopicPrefix(t)[|t|];
      assert k[..|t|] == TopicPrefix(t)[..|t|] == t;
    }
  }

  lemma {:induction false} PrefixIsTopic(k: Key, t: Topic)
    requires NulFree(t) && SepPos(k) < |k|
    ensures TopicPrefix(t) <= k <==> TopicOf(k) == t
  {
    PrefixAt(k, SepPos(k), t);
  }

  /** One topic more: what is deleted, what is left and what is counted. */
  lemma {:induction false} SweepTopic(all: DedupeTree, tree: DedupeTree, now: int, done: set<Topic>, t: Topic)
    requires Sorted(all) && WellFormed(all) && NulFree(t) && t !in done
    requires tree == Filter(all, Spared(now, done))
    ensures var hits := Filter(ScanPrefix(tree, TopicPrefix(t)), Lapsed(now));
      SweptSoFar(all, now, done + {t}, Without(tree, KeysOf(hits)), |Filter(all, Swept(now, done))| + |hits|)
  {
    var here := Swept(now, {t});
    FilterMember(all, Spared(now, done));
    forall e | e in all ensures IsDedupeKey(e.key) && (TopicPrefix(t) <= e.key <==> TopicOf(e.key) == t) {
      var i :| 0 <= i < |all| && all[i] == e;
      PrefixIsTopic(e.key, t);
    }
    forall e | e in tree ensures here(e) == (HasPrefix(TopicPrefix(t))(e) && Lapsed(now)(e)) {
      assert e in all;
    }
    FilterBoth(tree, HasPrefix(TopicPrefix(t)), Lapsed(now), here);
    FilterSorted(all, Spared(now, done));
    WithoutMatching(tree, here, Spared(now, {t}));
    FilterBoth(all, Spared(now, done), Spared(now, {t}), Spared(now, done + {t}));
    FilterBoth(all, Spared(now, done), here, here);
    FilterSplit(all, Swept(now, done), here, Swept(now, done + {t}));
  }

  lemma {:induction false} EverythingSwept(all: DedupeTree, now: int, done: set<Topic>)
    requires CoversTopics(all, done)
    ensures Filter(all, Spared(now, done)) == Filter(all, Live(now))
    ensures Filter(all, Swept(now, done)) == Filter(all, Lapsed(now))
  {
    forall e | e in all ensures TopicOf(e.key) in done {
      var i :| 0 <= i < |all| && all[i] == e;
    }
    FilterAgree(all, Spared(now, done), Live(now));
    FilterAgree(all, Swept(now, done), Lapsed(now));
  }

  // ---- The sled store refines the in-memory store ------------------------------------------

  /** The expiries that a tree records. */
  function Recorded(tree: DedupeTree): Expiries {
    if tree == [] then map[]
    else
      var n := |tree| - 1;
      var m := Recorded(tree[..n]);
      if |tree[n].value| >= 8 then m[MessageOf(tree[n].key) := I64FromBytes(tree[n].value[..8])] else m
  }

  lemma {:induction false} MessageOfKey(t: Topic, id: bytes)
    requires NulFree(t)
    ensures IsDedupeKey(DedupeKey(t, id)) && MessageOf(DedupeKey(t, id)) == (t, id)
  {
    var k := DedupeKey(t, id);
    SepPosAt(k, |t|);
    assert k[..|t|] == t;
    assert k[|t| + 1..|k| - 1] == id;
  }

  lemma {:induction false} SepPosAt(k: Key, i: nat)
    requires i < |k| && k[i] == SEP && NulFree(k[..i])
    ensures SepPos(k) == i
  {
    if i > 0 {
      assert k[0] == k[..i][0];
      assert k[1..][..i - 1] == k[..i][1..];
      SepPosAt(k[1..], i - 1);
    }
  }

  lemma {:induction false} KeyOfMessage(k: Key)
    requires IsDedupeKey(k)
    ensures k == DedupeKey(MessageOf(k).0, MessageOf(k).1) && NulFree(MessageOf(k).0)
  {
    var i := SepPos(k);
    assert k == k[..i] + [SEP] + k[i + 1..|k| - 1] + [SEP];
  }

  lemma {:induction false} RecordedGet(tree: DedupeTree, t: Topic, id: bytes)
    requires WellFormed(tree) && NulFree(t)
    ensures CellOf(Recorded(tree), (t, id)) ==
            match Get(tree, DedupeKey(t, id)) case None => None case Some(v) => Decode(v)
  {
    if tree != [] {
      var n := |tree| - 1;
      RecordedGet(tree[..n], t, id);
      MessageOfKey(t, id);
      KeyOfMessage(tree[n].key);
    }
  }

  lemma {:induction false} RecordedSnoc(tree: DedupeTree, e: Entry<bytes>)
    requires |e.value| == 8
    ensures Recorded(tree + [e]) == Recorded(tree)[MessageOf(e.key) := I64FromBytes(e.value)]
  {
    assert (tree + [e])[..|tree|] == tree;
    assert e.value[..8] == e.value;
  }

  lemma {:induction false} WellFormedPut(tree: DedupeTree, t: Topic, id: bytes, v: bytes)
    requires WellFormed(tree) && NulFree(t) && |v| == 8
    ensures WellFormed(Put(tree, DedupeKey(t, id), v))
  {
    var k := DedupeKey(t, id);
    var r := Put(tree, k, v);
    PutMembers(tree, k, v);
    MessageOfKey(t, id);
    forall i | 0 <= i < |r| ensures IsDedupeKey(r[i].key) && |r[i].value| == 8 {
      assert r[i] in r;
      if r[i] != Entry(k, v) {
        var j :| 0 <= j < |tree| && tree[j] == r[i];
      }
    }
  }

  lemma {:induction false} MessageInjective(k: Key, l: Key)
    requires IsDedupeKey(k) && IsDedupeKey(l)
    ensures MessageOf(k) == MessageOf(l) <==> k == l
  {
    KeyOfMessage(k);
    KeyOfMessage(l);
  }

  lemma {:induction false} RecordedPut(tree: DedupeTree, k: Key, v: bytes)
    requires WellFormed(tree) && IsDedupeKey(k) && |v| == 8
    ensures Recorded(Put(tree, k, v)) == Recorded(tree)[MessageOf(k) := I64FromBytes(v)]
  {
    hide MessageOf, I64FromBytes, Recorded, IsDedupeKey;
    if tree == [] {
      RecordedSnoc([], Entry(k, v));
      assert Put(tree, k, v) == [] + [Entry(k, v)];
    } else {
      var n := |tree| - 1;
      var init, last := tree[..n], tree[n];
      assert tree == init + [last];
      RecordedSnoc(init, last);
      MessageInjective(last.key, k);
      if Less(last.key, k) {
        RecordedSnoc(tree, Entry(k, v));
      } else if last.key == k {
        RecordedSnoc(init, Entry(k, v));
      } else {
        RecordedPut(init, k, v);
        RecordedSnoc(Put(init, k, v), last);
      }
    }
  }

  lemma {:induction false} NewMessage(tree: DedupeTree, n: nat)
    requires Sorted(tree) && WellFormed(tree) && n < |tree|
    ensures MessageOf(tree[n].key) !in Recorded(tree[..n])
  {
    var k := tree[n].key;
    KeyOfMessage(k);
    RecordedGet(tree[..n], MessageOf(k).0, MessageOf(k).1);
    var g := Get(tree[..n], k);
    if g.Some? {
      GetMember(tree[..n], k);
      assert Entry(k, g.value) in tree[..n];
      var i :| 0 <= i < n && tree[..n][i] == Entry(k, g.value);
      LessTotal(tree[i].key, k);
    }
  }

  lemma {:induction false} SweepSnoc(m: Expiries, k: MessageKey, expires: int, now: int)
    requires k !in m
    ensures MemSweep(m[k := expires], now) ==
            if expires <= now then (MemSweep(m, now).0, MemSweep(m, now).1 + 1)
            else (MemSweep(m, now).0[k := expires], MemSweep(m, now).1)
  {
    var m' := m[k := expires];
    if expires <= now {
      assert Expired(m', now) == Expired(m, now) + {k};
      assert m' - Expired(m', now) == m - Expired(m, now);
    } else {
      assert Expired(m', now) == Expired(m, now);
      assert m' - Expired(m', now) == (m - Expired(m, now))[k := expires];
    }
  }

  /** The sled sweep forgets and counts the messages that the in-memory sweep does. */
  lemma {:induction false} RecordedSweep(tree: DedupeTree, now: int)
    requires Sorted(tree) && WellFormed(tree)
    ensures Recorded(Filter(tree, Live(now))) == MemSweep(Recorded(tree), now).0
    ensures |Filter(tree, Lapsed(now))| == MemSweep(Recorded(tree), now).1
  {
    if tree != [] {
      var n := |tree| - 1;
      var init, last := tree[..n], tree[n];
      RecordedSweep(init, now);
      NewMessage(tree, n);
      assert tree == init + [last] && last.value[..8] == last.value;
      RecordedSnoc(init, last);
      SweepSnoc(Recorded(init), MessageOf(last.key), I64FromBytes(last.value), now);
      if Live(now)(last) {
        RecordedSnoc(Filter(init, Live(now)), last);
      }
    }
  }

  lemma {:induction false} WellFormedFilter(tree: DedupeTree, p: Entry<bytes> -> bool)
    requires WellFormed(tree)
    ensures WellFormed(Filter(tree, p))
  {
    FilterMember(tree, p);
    var r := Filter(tree, p);
    forall i | 0 <= i < |r| ensures IsDedupeKey(r[i].key) && |r[i].value| == 8 {
      assert r[i] in tree;
      var j :| 0 <= j < |tree| && tree[j] == r[i];
    }
  }

  datatype Answer = Fresh | Duplicate | Removed(count: nat)

  function MemAnswer(m: Expiries, op: DedupeOp): Answer {
    match op
    case Check(k, now, window) => if MemCheck(m, k, now, window).1 then Fresh else Duplicate
    case Sweep(now) => Removed(MemSweep(m, now).1)
  }

  ghost predicate Allowed(op: DedupeOp) {
    op.Check? ==> NulFree(op.key.0) && -TWO_63 <= op.now + op.window < TWO_63
  }

  function SledApply(tree: DedupeTree, op: DedupeOp): (DedupeTree, Answer)
    requires Allowed(op)
  {
    match op
    case Check(k, now, window) =>
      var (tree', isNew) := SledCheck(tree, k, now, window);
      (tree', if isNew then Fresh else Duplicate)
    case Sweep(now) => (SledSweep(tree, now).0, Removed(SledSweep(tree, now).1))
  }

  function SledRun(ops: seq<DedupeOp>): (r: (DedupeTree, seq<Answer>))
    requires forall i :: 0 <= i < |ops| ==> Allowed(ops[i])
  {
    if ops == [] then ([], [])
    else
      var (tree, answers) := SledRun(ops[..|ops| - 1]);
      var (tree', a) := SledApply(tree, ops[|ops| - 1]);
      (tree', answers + [a])
  }

  function MemAnswers(ops: seq<DedupeOp>): seq<Answer> {
    if ops == [] then []
    else MemAnswers(ops[..|ops| - 1]) + [MemAnswer(MemRun(ops[..|ops| - 1]), ops[|ops| - 1])]
  }

  /** Over every run of checks and sweeps the two stores give the same answers. */
  lemma {:induction false} SledRefinesMemory(ops: seq<DedupeOp>)
    requires forall i :: 0 <= i < |ops| ==> Allowed(ops[i])
    ensures SledRun(ops).1 == MemAnswers(ops)
    ensures Sorted(SledRun(ops).0) && WellFormed(SledRun(ops).0)
    ensures Recorded(SledRun(ops).0) == MemRun(ops)
  {
    if ops != [] {
      var n := |ops| - 1;
      SledRefinesMemory(ops[..n]);
      StepRefines(SledRun(ops[..n]).0, ops[n]);
    }
  }

  lemma {:induction false} StepRefines(tree: DedupeTree, op: DedupeOp)
    requires Sorted(tree) && WellFormed(tree) && Allowed(op)
    ensures SledApply(tree, op).1 == MemAnswer(Recorded(tree), op)
    ensures Sorted(SledApply(tree, op).0) && WellFormed(SledApply(tree, op).0)
    ensures Recorded(SledApply(tree, op).0) == MemApply(Recorded(tree), op)
  {
    if op.Check? {
      CheckRefines(tree, op.key.0, op.key.1, op.now, op.window);
    } else {
      hide I64FromBytes, Recorded, SledCheck;
      RecordedSweep(tree, op.now);
      WellFormedFilter(tree, Live(op.now));
      FilterSorted(tree, Live(op.now));
    }
  }

  lemma {:induction false} CheckRefines(tree: DedupeTree, t: Topic, id: bytes, now: int, window: nat)
    requires Sorted(tree) && WellFormed(tree) && NulFree(t) && -TWO_63 <= now + window < TWO_63
    ensures SledCheck(tree, (t, id), now, window).1 == MemCheck(Recorded(tree), (t, id), now, window).1
    ensures var tree' := SledCheck(tree, (t, id), now, window).0;
      && Sorted(tree') && WellFormed(tree')
      && Recorded(tree') == MemCheck(Recorded(tree), (t, id), now, window).0
  {
    hide Recorded, Sorted, WellFormed, I64FromBytes, I64ToBytes, DedupeKey, MessageOf, IsDedupeKey, NulFree;
    RecordedGet(tree, t, id);
    var v := I64ToBytes(now + window);
    I64RoundTrip(now + window);
    MessageOfKey(t, id);
    RecordedPut(tree, DedupeKey(t, id), v);
    WellFormedPut(tree, t, id, v);
    PutSorted(tree, DedupeKey(t, id), v);
  }
}
