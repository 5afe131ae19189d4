/**
 A sled tree: an ordered map from byte keys to values, kept as the strictly
 sorted sequence of its entries, which is what a scan returns.
 */
module SledTree {
  import opened Sequences
  import opened Keys

  datatype Entry<V> = Entry(key: Key, value: V)
  type Tree<V> = seq<Entry<V>>

  ghost predicate Sorted<V>(t: Tree<V>) {
    forall i, j :: 0 <= i < j < |t| ==> Less(t[i].key, t[j].key)
  }

  function Get<V>(t: Tree<V>, k: Key): (r: Option<V>) {
    if t == [] then None
    else if t[|t| - 1].key == k then Some(t[|t| - 1].value)
    else Get(t[..|t| - 1], k)
  }

  /** Insert or overwrite, keeping the entries in key order. */
  function Put<V>(t: Tree<V>, k: Key, v: V): (r: Tree<V>)
    ensures r != []
  {
    if t == [] then [Entry(k, v)]
    else
      var n := |t| - 1;
      if Less(t[n].key, k) then t + [Entry(k, v)]
      else if t[n].key == k then t[..n] + [Entry(k, v)]
      else Put(t[..n], k, v) + [t[n]]
  }

  function HasPrefix<V>(p: Key): Entry<V> -> bool { (e: Entry<V>) => p <= e.key }
  function KeyOutside<V>(ks: seq<Key>): Entry<V> -> bool { (e: Entry<V>) => e.key !in ks }
  function KeyOf<V>(): Entry<V> -> Key { (e: Entry<V>) => e.key }
  function ValueOf<V>(): Entry<V> -> V { (e: Entry<V>) => e.value }

  function ScanPrefix<V>(t: Tree<V>, p: Key): (r: seq<Entry<V>>) {
    Filter(t, HasPrefix(p))
  }

  /** The tree after deleting every key of `ks`. */
  function Without<V>(t: Tree<V>, ks: seq<Key>): (r: Tree<V>) {
    Filter(t, KeyOutside(ks))
  }

  function KeysOf<V>(s: seq<Entry<V>>): (r: seq<Key>) { Map(s, KeyOf()) }
  function ValuesOf<V>(s: seq<Entry<V>>): (r: seq<V>) { Map(s, ValueOf()) }

  lemma {:induction false} PutMembers<V>(t: Tree<V>, k: Key, v: V)
    ensures forall e :: e in Put(t, k, v) ==> e == Entry(k, v) || e in t
  {
    if t != [] {
      var n := |t| - 1;
      PutMembers(t[..n], k, v);
    }
  }

  lemma {:induction false} PutSorted<V>(t: Tree<V>, k: Key, v: V)
    requires Sorted(t)
    ensures Sorted(Put(t, k, v))
  {
    if t != [] {
      var n := |t| - 1;
      LessTotal(t[n].key, k);
      if Less(t[n].key, k) {
        forall i | 0 <= i < n ensures Less(t[i].key, k) { LessTransitive(t[i].key, t[n].key, k); }
      } else if t[n].key != k {
        PutSorted(t[..n], k, v);
        PutMembers(t[..n], k, v);
        var r := Put(t[..n], k, v);
        forall i | 0 <= i < |r| ensures Less(r[i].key, t[n].key) {
          assert r[i] in r;
        }
      }
    }
  }

  lemma {:induction false} FilterSorted<V>(t: Tree<V>, p: Entry<V> -> bool)
    requires Sorted(t)
    ensures Sorted(Filter(t, p))
  {
    if t != [] {
      var n := |t| - 1;
      FilterSorted(t[..n], p);
      FilterMember(t[..n], p);
      var r := Filter(t[..n], p);
      forall i | 0 <= i < |r| ensures Less(r[i].key, t[n].key) {
        assert r[i] in t[..n];
        var j :| 0 <= j < n && t[..n][j] == r[i];
      }
    }
  }

  lemma {:induction false} GetPut<V>(t: Tree<V>, k: Key, v: V, q: Key)
    ensures Get(Put(t, k, v), q) == if q == k then Some(v) else Get(t, q)
  {
    if t != [] {
      GetPut(t[..|t| - 1], k, v, q);
    }
  }

  lemma {:induction false} GetWithout<V>(t: Tree<V>, ks: seq<Key>, q: Key)
    ensures Get(Without(t, ks), q) == if q in ks then None else Get(t, q)
  {
    if t != [] {
      GetWithout(t[..|t| - 1], ks, q);
    }
  }

  lemma {:induction false} GetMember<V>(t: Tree<V>, k: Key)
    requires Sorted(t)
    ensures forall v :: Get(t, k) == Some(v) <==> Entry(k, v) in t
  {
    if t != [] {
      var n := |t| - 1;
      GetMember(t[..n], k);
      assert t == t[..n] + [t[n]];
      forall i | 0 <= i < n && t[i].key == t[n].key ensures false {
        LessTotal(t[i].key, t[n].key);
      }
    }
  }

  lemma {:induction false} SameKeySameEntry<V>(t: Tree<V>, a: Entry<V>, b: Entry<V>)
    requires Sorted(t) && a in t && b in t && a.key == b.key
    ensures a == b
  {
    GetMember(t, a.key);
    assert a == Entry(a.key, a.value) && b == Entry(a.key, b.value);
  }

  lemma {:induction false} ScanSnoc<V>(t: Tree<V>, e: Entry<V>, p: Key)
    ensures ScanPrefix(t + [e], p) == ScanPrefix(t, p) + if p <= e.key then [e] else []
  {
    assert (t + [e])[..|t|] == t;
  }

  lemma {:induction false} PutSnoc<V>(t: Tree<V>, e: Entry<V>, k: Key, v: V)
    ensures Put(t + [e], k, v) ==
            if Less(e.key, k) then t + [e] + [Entry(k, v)]
            else if e.key == k then t + [Entry(k, v)]
            else Put(t, k, v) + [e]
  {
    assert (t + [e])[..|t|] == t;
  }

  lemma {:induction false} PutLast<V>(t: Tree<V>, k: Key, v: V)
    requires t != [] ==> Less(t[|t| - 1].key, k)
    ensures Put(t, k, v) == t + [Entry(k, v)]
  {
  }

  /** A scan sees a put exactly when the key has the prefix. */
  lemma {:induction false} ScanPut<V>(t: Tree<V>, k: Key, v: V, p: Key)
    requires Sorted(t)
    ensures ScanPrefix(Put(t, k, v), p) ==
            if p <= k then Put(ScanPrefix(t, p), k, v) else ScanPrefix(t, p)
  {
    if t == [] {
      ScanSnoc([], Entry(k, v), p);
    } else {
      var n := |t| - 1;
      var init, e, new' := t[..n], t[n], Entry(k, v);
      assert t == init + [e];
      ScanPut(init, k, v, p);
      ScanSnoc(init, e, p);
      PutSnoc(init, e, k, v);
      PutSnoc(ScanPrefix(init, p), e, k, v);
      if Less(e.key, k) {
        ScanSnoc(t, new', p);
        if init != [] { LessTransitive(init[n - 1].key, e.key, k); }
        PutLast(init, k, v);
        ScanSnoc(init, new', p);
      } else if e.key == k {
        ScanSnoc(init, new', p);
      } else {
        ScanSnoc(Put(init, k, v), e, p);
      }
    }
  }

  /** Deleting and scanning commute. */
  lemma {:induction false} ScanWithout<V>(t: Tree<V>, ks: seq<Key>, p: Key)
    ensures ScanPrefix(Without(t, ks), p) == Without(ScanPrefix(t, p), ks)
  {
    FilterCommutes(t, KeyOutside(ks), HasPrefix(p));
  }

  lemma {:induction false} WithoutMore<V>(t: Tree<V>, ks: seq<Key>, k: Key)
    ensures Without(Without(t, ks), [k]) == Without(t, ks + [k])
  {
    if t != [] {
      WithoutMore(t[..|t| - 1], ks, k);
    }
  }

  lemma {:induction false} KeyAmong<V>(s: seq<Entry<V>>, i: nat, d: nat)
    requires Sorted(s) && i < |s| && d <= |s|
    ensures s[i].key in KeysOf(s[..d]) <==> i < d
  {
    var ks := KeysOf(s[..d]);
    if i < d {
      assert ks[i] == s[i].key;
    } else {
      forall j | 0 <= j < d ensures ks[j] != s[i].key { LessTotal(s[j].key, s[i].key); }
    }
  }

  /** Deleting the first `d` entries of a scan leaves the others. */
  lemma {:induction false} WithoutFirst<V>(s: seq<Entry<V>>, d: nat)
    requires Sorted(s) && d <= |s|
    ensures Without(s, KeysOf(s[..d])) == s[d..]
  {
    var keep := KeyOutside(KeysOf(s[..d]));
    forall i | 0 <= i < |s| ensures keep(s[i]) == (i >= d) { KeyAmong(s, i, d); }
    FilterFrom(s, d, keep);
  }

  /** Deleting the entries that satisfy `p` leaves those that satisfy `q`. */
  lemma {:induction false} WithoutMatching<V>(s: seq<Entry<V>>, p: Entry<V> -> bool, q: Entry<V> -> bool)
    requires Sorted(s)
    requires forall e :: e in s ==> q(e) == !p(e)
    ensures Without(s, KeysOf(Filter(s, p))) == Filter(s, q)
  {
    var hit := Filter(s, p);
    var ks := KeysOf(hit);
    FilterMember(s, p);
    forall e | e in s ensures e.key in ks <==> p(e) {
      if p(e) {
        var i :| 0 <= i < |hit| && hit[i] == e;
        assert ks[i] == e.key;
      } else if e.key in ks {
        var i :| 0 <= i < |ks| && ks[i] == e.key;
        assert hit[i] in s && p(hit[i]);
        SameKeySameEntry(s, e, hit[i]);
      }
    }
    FilterAgree(s, KeyOutside(ks), q);
  }
}
