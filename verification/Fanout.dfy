/** The fanout engine: three indexes over one list of live subscriptions. */
module Fanout {
  import opened Sequences
  import opened Keys

  /** A connection's sink: which object it is, and the id that it reports. */
  datatype Sink = Sink(handle: nat, id: nat)

  datatype Sub = Sub(id: nat, topic: Topic, sink: Sink)

  function OnTopic(t: Topic): Sub -> bool { (s: Sub) => s.topic == t }
  function OfSink(k: nat): Sub -> bool { (s: Sub) => s.sink.id == k }
  function NotOfSink(k: nat): Sub -> bool { (s: Sub) => s.sink.id != k }
  function NotId(id: nat): Sub -> bool { (s: Sub) => s.id != id }
  function IdOf(): Sub -> nat { (s: Sub) => s.id }
  function TopicOf(): Sub -> Topic { (s: Sub) => s.topic }
  function SinkOf(): Sub -> Sink { (s: Sub) => s.sink }
  function PairOf(): Sub -> (nat, Sink) { (s: Sub) => (s.id, s.sink) }
  function PairNotId(id: nat): ((nat, Sink)) -> bool { (p: (nat, Sink)) => p.0 != id }
  function OtherId(id: nat): nat -> bool { (x: nat) => x != id }

  // ---- The list of live subscriptions -------------------------------------------

  /** Ids are handed out in increasing order, starting at 1, and none exceeds `lastId`. */
  ghost predicate IdsAscend(subs: seq<Sub>, lastId: nat) {
    subs != [] ==>
      var s := subs[|subs| - 1];
      1 <= s.id <= lastId && IdsAscend(subs[..|subs| - 1], s.id - 1)
  }

  lemma {:induction false} IdsBounded(subs: seq<Sub>, lastId: nat)
    requires IdsAscend(subs, lastId)
    ensures forall i :: 0 <= i < |subs| ==> 1 <= subs[i].id <= lastId
    ensures forall bound :: lastId <= bound ==> IdsAscend(subs, bound)
  {
    if subs != [] {
      IdsBounded(subs[..|subs| - 1], subs[|subs| - 1].id - 1);
    }
  }

  /** Subscription ids are unique and increase in subscription order. */
  lemma {:induction false} IdsIncrease(subs: seq<Sub>, lastId: nat, i: nat, j: nat)
    requires IdsAscend(subs, lastId) && i < j < |subs|
    ensures subs[i].id < subs[j].id
  {
    var n := |subs| - 1;
    if j == n {
      IdsBounded(subs[..n], subs[n].id - 1);
      assert subs[..n][i] == subs[i];
    } else {
      IdsIncrease(subs[..n], subs[n].id - 1, i, j);
    }
  }

  function Without(subs: seq<Sub>, id: nat): seq<Sub> { Filter(subs, NotId(id)) }

  /** The subscription with a given id, if it is live. */
  function Find(subs: seq<Sub>, id: nat): (r: Option<Sub>)
    ensures r.Some? ==> r.value in subs && r.value.id == id
    ensures r.None? ==> forall i :: 0 <= i < |subs| ==> subs[i].id != id
  {
    if subs == [] then None
    else if subs[|subs| - 1].id == id then Some(subs[|subs| - 1])
    else Find(subs[..|subs| - 1], id)
  }

  lemma {:induction false} AscendFilter(subs: seq<Sub>, lastId: nat, p: Sub -> bool)
    requires IdsAscend(subs, lastId)
    ensures IdsAscend(Filter(subs, p), lastId)
  {
    if subs != [] {
      var n := |subs| - 1;
      AscendFilter(subs[..n], subs[n].id - 1, p);
      IdsBounded(Filter(subs[..n], p), subs[n].id - 1);
      assert p(subs[n]) ==> Filter(subs, p)[..|Filter(subs, p)| - 1] == Filter(subs[..n], p);
    }
  }

  lemma {:induction false} AscendSnoc(subs: seq<Sub>, lastId: nat, topic: Topic, sink: Sink)
    requires IdsAscend(subs, lastId)
    ensures IdsAscend(subs + [Sub(lastId + 1, topic, sink)], lastId + 1)
  {
    assert (subs + [Sub(lastId + 1, topic, sink)])[..|subs|] == subs;
  }

  lemma {:induction false} UniqueId(subs: seq<Sub>, lastId: nat, a: Sub, b: Sub)
    requires IdsAscend(subs, lastId) && a in subs && b in subs && a.id == b.id
    ensures a == b
  {
    var i :| 0 <= i < |subs| && subs[i] == a;
    var j :| 0 <= j < |subs| && subs[j] == b;
    if i < j { IdsIncrease(subs, lastId, i, j); }
    if j < i { IdsIncrease(subs, lastId, j, i); }
  }

  /** Removing a subscription takes one element out of the filters it is in, and none out of the others. */
  lemma {:induction false} WithoutCounts(subs: seq<Sub>, lastId: nat, s: Sub, p: Sub -> bool)
    requires IdsAscend(subs, lastId) && s in subs
    ensures |Filter(Without(subs, s.id), p)| == |Filter(subs, p)| - (if p(s) then 1 else 0)
    ensures !p(s) ==> Filter(Without(subs, s.id), p) == Filter(subs, p)
  {
    var n := |subs| - 1;
    var init, last := subs[..n], subs[n];
    assert subs == init + [last];
    if last.id == s.id {
      UniqueId(subs, lastId, last, s);
      IdsBounded(init, last.id - 1);
      FilterAll(init, NotId(s.id));
    } else {
      assert s in init;
      WithoutCounts(init, last.id - 1, s, p);
      FilterAppend(Without(init, s.id), [last], p);
    }
  }

  // ---- The indexes ------------------------------------------------------------------

  function TopicList(subs: seq<Sub>, t: Topic): seq<(nat, Sink)> { Map(Filter(subs, OnTopic(t)), PairOf()) }
  function SinkList(subs: seq<Sub>, k: nat): seq<nat> { Map(Filter(subs, OfSink(k)), IdOf()) }

  function AddTo<K, V>(m: map<K, seq<V>>, k: K, v: V): map<K, seq<V>> {
    m[k := (if k in m then m[k] else []) + [v]]
  }

  /** Keep the elements of one list that satisfy `p`, and drop the list if none is left. */
  function Retain<K, V>(m: map<K, seq<V>>, k: K, p: V -> bool): map<K, seq<V>> {
    if k !in m then m
    else if Filter(m[k], p) == [] then m - {k}
    else m[k := Filter(m[k], p)]
  }

  function TopicIndex(subs: seq<Sub>): map<Topic, seq<(nat, Sink)>> {
    if subs == [] then map[]
    else
      var s := subs[|subs| - 1];
      AddTo(TopicIndex(subs[..|subs| - 1]), s.topic, (s.id, s.sink))
  }

  function SinkIndex(subs: seq<Sub>): map<nat, seq<nat>> {
    if subs == [] then map[]
    else
      var s := subs[|subs| - 1];
      AddTo(SinkIndex(subs[..|subs| - 1]), s.sink.id, s.id)
  }

  function IdMap(subs: seq<Sub>): map<nat, (Topic, Sink)> {
    if subs == [] then map[]
    else
      var s := subs[|subs| - 1];
      IdMap(subs[..|subs| - 1])[s.id := (s.topic, s.sink)]
  }

  lemma {:induction false} IdMapFinds(subs: seq<Sub>, id: nat)
    ensures id in IdMap(subs) <==> Find(subs, id).Some?
    ensures id in IdMap(subs) ==> var s := Find(subs, id).value; IdMap(subs)[id] == (s.topic, s.sink)
  {
    if subs != [] { IdMapFinds(subs[..|subs| - 1], id); }
  }

  lemma {:induction false} IdMapWithout(subs: seq<Sub>, id: nat)
    ensures IdMap(Without(subs, id)) == IdMap(subs) - {id}
  {
    if subs != [] {
      var n := |subs| - 1;
      IdMapWithout(subs[..n], id);
      if subs[n].id != id {
        assert Without(subs, id)[..|Without(subs, id)| - 1] == Without(subs[..n], id);
        assert IdMap(subs) - {id} == (IdMap(subs[..n]) - {id})[subs[n].id := (subs[n].topic, subs[n].sink)];
      } else {
        assert IdMap(subs) - {id} == IdMap(subs[..n]) - {id};
      }
    }
  }

  lemma {:induction false} IdMapCounts(subs: seq<Sub>, lastId: nat)
    requires IdsAscend(subs, lastId)
    ensures |IdMap(subs)| == |subs|
  {
    if subs != [] {
      var n := |subs| - 1;
      IdMapCounts(subs[..n], subs[n].id - 1);
      IdMapFinds(subs[..n], subs[n].id);
      IdsBounded(subs[..n], subs[n].id - 1);
    }
  }

  /** The topic index holds the topics that have subscriptions, each with its list in order. */
  lemma {:induction false} TopicIndexIs(subs: seq<Sub>, t: Topic)
    ensures t in TopicIndex(subs) <==> TopicList(subs, t) != []
    ensures t in TopicIndex(subs) ==> TopicIndex(subs)[t] == TopicList(subs, t)
  {
    if subs != [] {
      TopicIndexIs(subs[..|subs| - 1], t);
    }
  }

  /** The sink index holds the sinks that have subscriptions, each with its ids in order. */
  lemma {:induction false} SinkIndexIs(subs: seq<Sub>, k: nat)
    ensures k in SinkIndex(subs) <==> SinkList(subs, k) != []
    ensures k in SinkIndex(subs) ==> SinkIndex(subs)[k] == SinkList(subs, k)
  {
    if subs != [] {
      SinkIndexIs(subs[..|subs| - 1], k);
    }
  }

  lemma {:induction false} TopicListWithout(subs: seq<Sub>, lastId: nat, s: Sub, t: Topic)
    requires IdsAscend(subs, lastId) && s in subs
    ensures TopicList(Without(subs, s.id), t) ==
            if s.topic == t then Filter(TopicList(subs, t), PairNotId(s.id)) else TopicList(subs, t)
  {
    WithoutCounts(subs, lastId, s, OnTopic(t));
    FilterCommutes(subs, NotId(s.id), OnTopic(t));
    FilterMap(Filter(subs, OnTopic(t)), PairOf(), PairNotId(s.id), NotId(s.id));
  }

  lemma {:induction false} SinkListWithout(subs: seq<Sub>, lastId: nat, s: Sub, k: nat)
    requires IdsAscend(subs, lastId) && s in subs
    ensures SinkList(Without(subs, s.id), k) ==
            if s.sink.id == k then Filter(SinkList(subs, k), OtherId(s.id)) else SinkList(subs, k)
  {
    WithoutCounts(subs, lastId, s, OfSink(k));
    FilterCommutes(subs, NotId(s.id), OfSink(k));
    FilterMap(Filter(subs, OfSink(k)), IdOf(), OtherId(s.id), NotId(s.id));
  }

  lemma {:induction false} TopicIndexWithout(subs: seq<Sub>, lastId: nat, s: Sub)
    requires IdsAscend(subs, lastId) && s in subs
    ensures TopicIndex(Without(subs, s.id)) == Retain(TopicIndex(subs), s.topic, PairNotId(s.id))
  {
    var a, b := TopicIndex(Without(subs, s.id)), Retain(TopicIndex(subs), s.topic, PairNotId(s.id));
    forall t ensures (t in a <==> t in b) && (t in a ==> a[t] == b[t]) {
      TopicIndexIs(subs, t);
      TopicIndexIs(Without(subs, s.id), t);
      TopicListWithout(subs, lastId, s, t);
    }
  }

  lemma {:induction false} SinkIndexWithout(subs: seq<Sub>, lastId: nat, s: Sub)
    requires IdsAscend(subs, lastId) && s in subs
    ensures SinkIndex(Without(subs, s.id)) == Retain(SinkIndex(subs), s.sink.id, OtherId(s.id))
  {
    var a, b := SinkIndex(Without(subs, s.id)), Retain(SinkIndex(subs), s.sink.id, OtherId(s.id));
    forall k ensures (k in a <==> k in b) && (k in a ==> a[k] == b[k]) {
      SinkIndexIs(subs, k);
      SinkIndexIs(Without(subs, s.id), k);
      SinkListWithout(subs, lastId, s, k);
    }
  }

  /** Which of the first `n` deliveries are accepted. */
  function Accepting(verdicts: nat -> bool, n: nat): set<nat> {
    set i: nat | i < n && verdicts(i)
  }

  class FanoutEngine {
    var byTopic: map<Topic, seq<(nat, Sink)>>
    var byId: map<nat, (Topic, Sink)>
    var bySink: map<nat, seq<nat>>
    var lastId: nat

    /** The live subscriptions, in the order in which they were made. */
    ghost var subs: seq<Sub>

    ghost predicate Valid()
      reads this
    {
      && IdsAscend(subs, lastId)
      && byTopic == TopicIndex(subs)
      && byId == IdMap(subs)
      && bySink == SinkIndex(subs)
    }

    constructor ()
      ensures Valid() && subs == [] && lastId == 0
    {
      byTopic, byId, bySink, lastId, subs := map[], map[], map[], 0, [];
    }

    method Subscribe(topic: Topic, sink: Sink) returns (id: nat)
      requires Valid()
      modifies this
      ensures Valid()
      ensures id == old(lastId) + 1 && lastId == id
      ensures subs == old(subs) + [Sub(id, topic, sink)]
    {
      id := lastId + 1;
      lastId := id;
      byTopic := AddTo(byTopic, topic, (id, sink));
      byId := byId[id := (topic, sink)];
      bySink := AddTo(bySink, sink.id, id);
      subs := subs + [Sub(id, topic, sink)];
      assert subs[..|subs| - 1] == old(subs);
    }

    method Unsubscribe(id: nat) returns (r: Option<Topic>)
      requires Valid()
      modifies this
      ensures Valid() && lastId == old(lastId)
      ensures subs == Without(old(subs), id)
      ensures r == match Find(old(subs), id) case None => None case Some(s) => Some(s.topic)
    {
      IdMapFinds(subs, id);
      if id !in byId {
        FilterAll(subs, NotId(id));
        return None;
      }
      TopicIndexWithout(subs, lastId, Find(subs, id).value);
      SinkIndexWithout(subs, lastId, Find(subs, id).value);
      IdMapWithout(subs, id);
      AscendFilter(subs, lastId, NotId(id));
      var (topic, sink) := byId[id];
      byId := byId - {id};
      byTopic := Retain(byTopic, topic, PairNotId(id));
      bySink := Retain(bySink, sink.id, OtherId(id));
      subs := Without(subs, id);
      r := Some(topic);
    }

    method DropSink(sinkId: nat) returns (topics: seq<Topic>)
      requires Valid()
      modifies this
      ensures Valid() && lastId == old(lastId)
      ensures subs == Filter(old(subs), NotOfSink(sinkId))
      ensures topics == Map(Filter(old(subs), OfSink(sinkId)), TopicOf())
    {
      topics := [];
      SinkIndexIs(subs, sinkId);
      hide TopicIndex, SinkIndex, IdMap, IdsAscend, Filter;
      var ids := if sinkId in bySink then bySink[sinkId] else [];
      ghost var mine := Filter(subs, OfSink(sinkId));
      ghost var others := Filter(subs, NotOfSink(sinkId));
      for i := 0 to |ids|
        invariant Valid() && lastId == old(lastId)
        invariant Filter(subs, OfSink(sinkId)) == mine[i..]
        invariant Filter(subs, NotOfSink(sinkId)) == others
        invariant topics == Map(mine[..i], TopicOf())
      {
        NextOfSink(subs, lastId, sinkId, mine[i..]);
        var t := Unsubscribe(ids[i]);
        if t.Some? {
          topics := topics + [t.value];
        }
        assert mine[i..][1..] == mine[i + 1..];
        assert Map(mine[..i + 1], TopicOf()) == Map(mine[..i], TopicOf()) + [mine[i].topic];
      }
      NoneOfSink(subs, sinkId);
      assert mine[..|mine|] == mine;
    }

    /** `verdicts(i)` says whether the i-th delivery was accepted by its sink. */
    method Deliver(topic: Topic, verdicts: nat -> bool) returns (ok: nat, reached: seq<Sink>)
      requires Valid()
      ensures reached == Map(Filter(subs, OnTopic(topic)), SinkOf())
      ensures ok == |set i: nat | i < |reached| && verdicts(i)|
    {
      TopicIndexIs(subs, topic);
      hide TopicIndex, SinkIndex, IdMap, IdsAscend, Filter;
      var subscribers := if topic in byTopic then byTopic[topic] else [];
      ok, reached := 0, [];
      ghost var mine := Filter(subs, OnTopic(topic));
      for i := 0 to |subscribers|
        invariant reached == Map(mine[..i], SinkOf())
        invariant ok == |Accepting(verdicts, i)|
      {
        reached := reached + [subscribers[i].1];
        assert Accepting(verdicts, i + 1) == Accepting(verdicts, i) + if verdicts(i) then {i} else {};
        if verdicts(i) { ok := ok + 1; }
        assert Map(mine[..i + 1], SinkOf()) == Map(mine[..i], SinkOf()) + [mine[i].sink];
      }
      assert mine[..|mine|] == mine;
      assert Accepting(verdicts, |reached|) == set i: nat | i < |reached| && verdicts(i);
    }

    method SubscriptionCount() returns (n: nat)
      requires Valid()
      ensures n == |subs|
    {
      IdMapCounts(subs, lastId);
      n := |byId|;
    }

    method TopicSubscriberCount(topic: Topic) returns (n: nat)
      requires Valid()
      ensures n == |Filter(subs, OnTopic(topic))|
    {
      TopicIndexIs(subs, topic);
      n := if topic in byTopic then |byTopic[topic]| else 0;
    }
  }

  /** Removing the oldest subscription of a sink advances that sink's list and no other. */
  lemma {:induction false} NextOfSink(subs: seq<Sub>, lastId: nat, k: nat, mine: seq<Sub>)
    requires IdsAscend(subs, lastId) && mine != [] && Filter(subs, OfSink(k)) == mine
    ensures Find(subs, mine[0].id) == Some(mine[0])
    ensures Filter(Without(subs, mine[0].id), OfSink(k)) == mine[1..]
    ensures Filter(Without(subs, mine[0].id), NotOfSink(k)) == Filter(subs, NotOfSink(k))
  {
    var s := mine[0];
    FilterMember(subs, OfSink(k));
    assert s in subs;
    var found := Find(subs, s.id);
    assert found.Some?;
    UniqueId(subs, lastId, s, found.value);
    WithoutCounts(subs, lastId, s, NotOfSink(k));
    FilterCommutes(subs, NotId(s.id), OfSink(k));
    AscendFilter(subs, lastId, OfSink(k));
    forall i | 1 <= i < |mine| ensures mine[i].id != s.id { IdsIncrease(mine, lastId, 0, i); }
    FilterAppend([s], mine[1..], NotId(s.id));
    FilterAll(mine[1..], NotId(s.id));
    assert Filter([s], NotId(s.id)) == [];
    assert mine == [s] + mine[1..];
  }

  lemma {:induction false} NoneOfSink(subs: seq<Sub>, k: nat)
    requires Filter(subs, OfSink(k)) == []
    ensures subs == Filter(subs, NotOfSink(k))
  {
    if subs != [] {
      NoneOfSink(subs[..|subs| - 1], k);
    }
  }
}
