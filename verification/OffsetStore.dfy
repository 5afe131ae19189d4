/**
 Per-topic offset allocation: the in-memory store, the sled store with its
 write-through cache, and their agreement across restarts.
 */
module OffsetStore {
  import opened Sequences
  import opened Bytes
  import opened Keys
  import opened SledTree

  /** Topic to the next offset that will be handed out. */
  type Counters = map<Topic, i64>
  type OffsetTree = Tree<bytes>

  datatype OffsetOp = Alloc(topic: Topic) | Head(topic: Topic) | Remove(topic: Topic) | Restart

  // ---- Memory-backed store -------------------------------------------------------

  function NextOf(m: Counters, t: Topic): i64 {
    if t in m then m[t] else 1
  }

  /** The state and the answer after one operation; a restart of the process is not its own operation. */
  function MemApply(m: Counters, op: OffsetOp): (Counters, i64) {
    match op
    case Alloc(t) => (m[t := Succ(NextOf(m, t))], NextOf(m, t))
    case Head(t) => (m, Pred(NextOf(m, t)))
    case Remove(t) => (m - {t}, 0)
    case Restart => (m, 0)
  }

  class MemoryOffsetStore {
    var inner: Counters

    constructor ()
      ensures inner == map[]
    {
      inner := map[];
    }

    method Alloc(topic: Topic) returns (offset: i64)
      modifies this
      ensures (inner, offset) == MemApply(old(inner), OffsetOp.Alloc(topic))
    {
      if topic !in inner {
        inner := inner[topic := 1];
      }
      offset := inner[topic];
      inner := inner[topic := Succ(offset)];
      assert inner == old(inner)[topic := Succ(offset)];
    }

    method Head(topic: Topic) returns (head: i64)
      ensures (inner, head) == MemApply(inner, OffsetOp.Head(topic))
    {
      head := if topic in inner then Pred(inner[topic]) else 0;
    }

    method Remove(topic: Topic)
      modifies this
      ensures inner == MemApply(old(inner), OffsetOp.Remove(topic)).0
    {
      inner := inner - {topic};
    }
  }

  // ---- Sled-backed store -----------------------------------------------------------

  datatype Sled = Sled(cache: map<Topic, i64>, tree: OffsetTree)

  function Decode(v: bytes): Option<i64> {
    if |v| >= 8 then Some(I64FromBytes(v[..8])) else None
  }

  function StoredHead(tree: OffsetTree, t: Topic): i64 {
    match Get(tree, OffsetKey(t))
    case None => 0
    case Some(v) => Decode(v).GetOr(0)
  }

  function SledHead(s: Sled, t: Topic): i64 {
    if t in s.cache then s.cache[t] else StoredHead(s.tree, t)
  }

  predicate EndsInHead(k: Key) {
    |k| >= 4 && k[|k| - 4..] == HEAD
  }

  /** An offset tree holds nothing but `<topic>\x00head` keys. */
  ghost predicate OffsetTreeKeys(tree: OffsetTree) {
    forall i :: 0 <= i < |tree| ==> IsOffsetKey(tree[i].key)
  }

  ghost predicate IsOffsetKey(k: Key) {
    |k| >= 5 && k[|k| - 5..] == [SEP] + HEAD
  }

  lemma {:induction false} OffsetKeyForm(k: Key)
    requires IsOffsetKey(k)
    ensures k == OffsetKey(k[..|k| - 5]) && EndsInHead(k)
  {
    assert k == k[..|k| - 5] + k[|k| - 5..];
    assert k[|k| - 4..] == k[|k| - 5..][1..];
  }

  /** The cache that a restart loads from the tree. */
  function Preload(tree: OffsetTree): (cache: map<Topic, i64>) {
    if tree == [] then map[]
    else
      var n := |tree| - 1;
      var e := tree[n];
      if EndsInHead(e.key) && |e.key| >= 5 && Decode(e.value).Some?
      then Preload(tree[..n])[e.key[..|e.key| - 5] := Decode(e.value).value]
      else Preload(tree[..n])
  }

  function SledApply(s: Sled, op: OffsetOp): (Sled, i64) {
    match op
    case Alloc(t) =>
      var next := Succ(SledHead(s, t));
      (Sled(s.cache[t := next], Put(s.tree, OffsetKey(t), I64ToBytes(next))), next)
    case Head(t) => (s, SledHead(s, t))
    case Remove(t) => (Sled(s.cache - {t}, Without(s.tree, [OffsetKey(t)])), 0)
    case Restart => (s.(cache := Preload(s.tree)), 0)
  }

  class SledOffsetStore {
    var cache: map<Topic, i64>
    var tree: OffsetTree

    /** Open the store over an existing tree. */
    constructor (tree: OffsetTree)
      requires OffsetTreeKeys(tree)
      ensures this.tree == tree && cache == Preload(tree)
    {
      var loaded: map<Topic, i64> := map[];
      for i := 0 to |tree|
        invariant loaded == Preload(tree[..i])
      {
        var e := tree[i];
        assert tree[..i + 1][..i] == tree[..i];
        if EndsInHead(e.key) {
          var topic := e.key[..|e.key| - 5];
          if |e.value| >= 8 {
            loaded := loaded[topic := I64FromBytes(e.value[..8])];
          }
        }
      }
      assert tree[..|tree|] == tree;
      this.tree := tree;
      cache := loaded;
    }

    method Alloc(topic: Topic) returns (next: i64)
      modifies this
      ensures (Sled(cache, tree), next) == SledApply(old(Sled(cache, tree)), OffsetOp.Alloc(topic))
    {
      if topic in cache {
        next := Succ(cache[topic]);
      } else {
        var stored := Get(tree, OffsetKey(topic));
        var head: i64 := 0;
        if stored.Some? && |stored.value| >= 8 {
          head := I64FromBytes(stored.value[..8]);
        }
        next := Succ(head);
      }
      cache := cache[topic := next];
      tree := Put(tree, OffsetKey(topic), I64ToBytes(next));
    }

    method Head(topic: Topic) returns (head: i64)
      ensures head == SledHead(Sled(cache, tree), topic)
    {
      if topic in cache {
        head := cache[topic];
      } else {
        head := 0;
        var stored := Get(tree, OffsetKey(topic));
        if stored.Some? && |stored.value| >= 8 {
          head := I64FromBytes(stored.value[..8]);
        }
      }
    }

    method Remove(topic: Topic)
      modifies this
      ensures Sled(cache, tree) == SledApply(old(Sled(cache, tree)), OffsetOp.Remove(topic)).0
    {
      cache := cache - {topic};
      tree := Without(tree, [OffsetKey(topic)]);
    }
  }

  // ---- Agreement across restarts -------------------------------------------------------

  /** The tree stores every head, and nothing else. */
  ghost predicate Stores(tree: OffsetTree, m: Counters) {
    && Sorted(tree)
    && OffsetTreeKeys(tree)
    && forall t :: Get(tree, OffsetKey(t)) == if t in m then Some(I64ToBytes(Pred(m[t]))) else None
  }

  /** The cache and the tree tell the same story as the in-memory counters. */
  ghost predicate Represents(s: Sled, m: Counters) {
    && Stores(s.tree, m)
    && s.cache.Keys == m.Keys
    && forall t :: t in m ==> s.cache[t] == Pred(m[t])
  }

  lemma {:induction false} DecodeStored(x: i64)
    ensures Decode(I64ToBytes(x)) == Some(x)
  {
    I64RoundTrip(x);
    assert I64ToBytes(x)[..8] == I64ToBytes(x);
  }

  lemma {:induction false} StoredHeadIs(tree: OffsetTree, m: Counters, t: Topic)
    requires Stores(tree, m)
    ensures StoredHead(tree, t) == Pred(NextOf(m, t))
  {
    if t in m { DecodeStored(Pred(m[t])); }
  }

  /** Every key is an offset key, and every value can be decoded. */
  ghost predicate Loadable(tree: OffsetTree) {
    Sorted(tree) && OffsetTreeKeys(tree) && forall i :: 0 <= i < |tree| ==> |tree[i].value| >= 8
  }

  lemma {:induction false} PreloadSnoc(tree: OffsetTree, t: Topic, v: bytes)
    requires |v| >= 8
    ensures Preload(tree + [Entry(OffsetKey(t), v)]) == Preload(tree)[t := I64FromBytes(v[..8])]
  {
    var k := OffsetKey(t);
    assert (tree + [Entry(k, v)])[..|tree|] == tree;
    assert k[..|k| - 5] == t && k[|k| - 4..] == HEAD;
  }

  lemma {:induction false} PreloadReads(tree: OffsetTree, t: Topic)
    requires Loadable(tree)
    ensures t in Preload(tree) <==> Get(tree, OffsetKey(t)).Some?
    ensures t in Preload(tree) ==> Some(Preload(tree)[t]) == Decode(Get(tree, OffsetKey(t)).value)
  {
    if tree != [] {
      var n := |tree| - 1;
      var init, last := tree[..n], tree[n];
      var u := last.key[..|last.key| - 5];
      PreloadReads(init, t);
      OffsetKeyForm(last.key);
      OffsetKeyInjective(t, u);
      assert tree == init + [Entry(OffsetKey(u), last.value)];
      PreloadSnoc(init, u, last.value);
    }
  }

  lemma {:induction false} StoredIsLoadable(tree: OffsetTree, m: Counters)
    requires Stores(tree, m)
    ensures Loadable(tree)
  {
    forall i | 0 <= i < |tree| ensures |tree[i].value| >= 8 {
      OffsetKeyForm(tree[i].key);
      GetMember(tree, tree[i].key);
      assert tree[i] == Entry(tree[i].key, tree[i].value) && tree[i] in tree;
    }
  }

  /** A restart rebuilds exactly the cache that was lost. */
  lemma {:induction false} RestartRestores(s: Sled, m: Counters)
    requires Represents(s, m)
    ensures Preload(s.tree) == s.cache
  {
    var loaded := Preload(s.tree);
    StoredIsLoadable(s.tree, m);
    forall t ensures (t in loaded <==> t in s.cache) && (t in loaded ==> loaded[t] == s.cache[t]) {
      PreloadReads(s.tree, t);
      if t in m { DecodeStored(Pred(m[t])); }
    }
  }

  lemma {:induction false} AllocStores(tree: OffsetTree, m: Counters, t: Topic)
    requires Stores(tree, m)
    ensures Stores(Put(tree, OffsetKey(t), I64ToBytes(NextOf(m, t))), m[t := Succ(NextOf(m, t))])
  {
    var k, v := OffsetKey(t), I64ToBytes(NextOf(m, t));
    PutSorted(tree, k, v);
    PutMembers(tree, k, v);
    var r := Put(tree, k, v);
    forall i | 0 <= i < |r| ensures IsOffsetKey(r[i].key) {
      assert r[i] in r;
      if r[i] != Entry(k, v) {
        var j :| 0 <= j < |tree| && tree[j] == r[i];
      }
    }
    forall u ensures Get(r, OffsetKey(u)) == if u == t then Some(v) else Get(tree, OffsetKey(u)) {
      GetPut(tree, k, v, OffsetKey(u));
      OffsetKeyInjective(t, u);
    }
  }

  lemma {:induction false} WithoutOffsetKeys(tree: OffsetTree, ks: seq<Key>)
    requires OffsetTreeKeys(tree)
    ensures OffsetTreeKeys(Without(tree, ks))
  {
    FilterMember(tree, KeyOutside(ks));
    var r := Without(tree, ks);
    forall i | 0 <= i < |r| ensures IsOffsetKey(r[i].key) {
      assert r[i] in tree;
      var j :| 0 <= j < |tree| && tree[j] == r[i];
    }
  }

  lemma {:induction false} RemoveStores(tree: OffsetTree, m: Counters, t: Topic)
    requires Stores(tree, m)
    ensures Stores(Without(tree, [OffsetKey(t)]), m - {t})
  {
    var ks := [OffsetKey(t)];
    FilterSorted(tree, KeyOutside(ks));
    WithoutOffsetKeys(tree, ks);
    forall u ensures Get(Without(tree, ks), OffsetKey(u)) == if u == t then None else Get(tree, OffsetKey(u)) {
      GetWithout(tree, ks, OffsetKey(u));
      OffsetKeyInjective(t, u);
    }
  }

  lemma {:induction false} AllocRefines(s: Sled, m: Counters, t: Topic)
    requires Represents(s, m)
    ensures SledApply(s, Alloc(t)).1 == MemApply(m, Alloc(t)).1
    ensures Represents(SledApply(s, Alloc(t)).0, MemApply(m, Alloc(t)).0)
  {
    StoredHeadIs(s.tree, m, t);
    assert SledHead(s, t) == Pred(NextOf(m, t));
    assert Succ(SledHead(s, t)) == NextOf(m, t);
    AllocStores(s.tree, m, t);
  }

  lemma {:induction false} RemoveRefines(s: Sled, m: Counters, t: Topic)
    requires Represents(s, m)
    ensures Represents(SledApply(s, Remove(t)).0, MemApply(m, Remove(t)).0)
  {
    RemoveStores(s.tree, m, t);
  }

  /** One operation, a restart included: the same answer, and the states still correspond. */
  lemma {:induction false} StepRefines(s: Sled, m: Counters, op: OffsetOp)
    requires Represents(s, m)
    ensures SledApply(s, op).1 == MemApply(m, op).1
    ensures Represents(SledApply(s, op).0, MemApply(m, op).0)
  {
    if op.Alloc? {
      AllocRefines(s, m, op.topic);
    } else if op.Head? {
      StoredHeadIs(s.tree, m, op.topic);
    } else if op.Remove? {
      RemoveRefines(s, m, op.topic);
    } else {
      RestartRestores(s, m);
    }
  }

  // ---- Whole runs --------------------------------------------------------------------------

  function MemRun(ops: seq<OffsetOp>): (r: (Counters, seq<i64>))
    ensures |r.1| == |ops|
  {
    if ops == [] then (map[], [])
    else
      var (m, answers) := MemRun(ops[..|ops| - 1]);
      var (m', a) := MemApply(m, ops[|ops| - 1]);
      (m', answers + [a])
  }

  function SledRun(ops: seq<OffsetOp>): (Sled, seq<i64>) {
    if ops == [] then (Sled(map[], []), [])
    else
      var (s, answers) := SledRun(ops[..|ops| - 1]);
      var (s', a) := SledApply(s, ops[|ops| - 1]);
      (s', answers + [a])
  }

  /**
   Restarted any number of times, the sled store answers as the in-memory store
   does.
   */
  lemma {:induction false} SledRefinesMemory(ops: seq<OffsetOp>)
    ensures SledRun(ops).1 == MemRun(ops).1
    ensures Represents(SledRun(ops).0, MemRun(ops).0)
  {
    if ops != [] {
      var n := |ops| - 1;
      SledRefinesMemory(ops[..n]);
      StepRefines(SledRun(ops[..n]).0, MemRun(ops[..n]).0, ops[n]);
    }
  }

  /** At every point of a run the cache is what a restart would load from the tree. */
  lemma {:induction false} CacheMatchesTree(ops: seq<OffsetOp>)
    ensures SledRun(ops).0.cache == Preload(SledRun(ops).0.tree)
  {
    SledRefinesMemory(ops);
    RestartRestores(SledRun(ops).0, MemRun(ops).0);
  }

  /** The offsets that a run hands out on `t`, in order. */
  function Issued(ops: seq<OffsetOp>, t: Topic): seq<i64> {
    if ops == [] then []
    else
      var n := |ops| - 1;
      if ops[n] == Alloc(t) then Issued(ops[..n], t) + [MemRun(ops).1[n]] else Issued(ops[..n], t)
  }

  /**
   Unless the topic is removed, its offsets are 1, 2, 3, ...: none is skipped or
   reissued before 2^63 - 1 of them have been handed out.
   */
  lemma {:induction false} OffsetsAreConsecutive(ops: seq<OffsetOp>, t: Topic)
    requires |ops| < TWO_63 - 1
    requires forall i :: 0 <= i < |ops| ==> ops[i] != Remove(t)
    ensures forall i :: 0 <= i < |Issued(ops, t)| ==> Issued(ops, t)[i] == i + 1
    ensures |Issued(ops, t)| <= |ops| && NextOf(MemRun(ops).0, t) == |Issued(ops, t)| + 1
  {
    if ops != [] {
      OffsetsAreConsecutive(ops[..|ops| - 1], t);
    }
  }

  /** A removed topic starts over at 1, and no other topic notices. */
  lemma {:induction false} RemovedTopicStartsOver(ops: seq<OffsetOp>, t: Topic, u: Topic)
    ensures MemApply(MemRun(ops + [Remove(t)]).0, Head(t)).1 == 0
    ensures MemApply(MemRun(ops + [Remove(t)]).0, Alloc(t)).1 == 1
    ensures u != t ==> NextOf(MemRun(ops + [Remove(t)]).0, u) == NextOf(MemRun(ops).0, u)
  {
    assert (ops + [Remove(t)])[..|ops|] == ops;
  }
}
