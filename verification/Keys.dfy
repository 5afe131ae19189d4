/**
 The byte keys under which the sled-backed stores file their entries, and the
 lexicographic order that sled sorts them by.
 */
module Keys {
  import opened Bytes

  /** A topic name, as its UTF-8 bytes. */
  type Topic = bytes
  type Key = bytes

  const SEP: byte := 0
  const MAX_TOPIC_BYTES := 256

  // ---- Topic names -------------------------------------------------------

  datatype NameCheck = NameOk | EmptyName | NameTooLong | ReservedPrefix | ControlCharacter

  ghost predicate NulFree(s: bytes) {
    forall i :: 0 <= i < |s| ==> s[i] != SEP
  }

  /** A Unicode control character (U+0000-001F, U+007F-009F) starts at byte `i`. */
  predicate ControlAt(s: bytes, i: nat)
    requires i < |s|
  {
    s[i] < 0x20 || s[i] == 0x7F || (s[i] == 0xC2 && i + 1 < |s| && 0x80 <= s[i + 1] < 0xA0)
  }

  function ValidateName(name: Topic): (r: NameCheck)
    ensures r.NameOk? ==> 0 < |name| <= MAX_TOPIC_BYTES && NulFree(name)
  {
    if name == [] then EmptyName
    else if |name| > MAX_TOPIC_BYTES then NameTooLong
    else if name[0] == 0x24 then ReservedPrefix
    else if HasControl(name) then ControlCharacter
    else
      NoControlNoNul(name);
      NameOk
  }

  predicate HasControl(s: bytes) {
    exists i :: 0 <= i < |s| && ControlAt(s, i)
  }

  lemma {:induction false} NoControlNoNul(s: bytes)
    requires !HasControl(s)
    ensures NulFree(s)
  {
    forall i | 0 <= i < |s| ensures s[i] != SEP {
      assert !ControlAt(s, i);
    }
  }

  /** The rules for topic names, byte by byte. */
  ghost predicate ValidName(name: Topic) {
    && 0 < |name| <= 256 && name[0] != '$' as int
    && forall i :: 0 <= i < |name| ==> name[i] >= 0x20 && name[i] != 0x7F && !C1Control(name, i)
  }

  /** U+0080 to U+009F take two bytes in UTF-8. */
  predicate C1Control(name: Topic, i: nat)
    requires i < |name|
  {
    name[i] == 0xC2 && i + 1 < |name| && 0x80 <= name[i + 1] <= 0x9F
  }

  /** A name passes exactly when it meets the rules, and otherwise the first broken rule is named. */
  lemma {:induction false} NameOkExactlyWhen(name: Topic)
    ensures ValidateName(name) ==
      if |name| == 0 then EmptyName
      else if |name| > 256 then NameTooLong
      else if name[0] == '$' as int then ReservedPrefix
      else if ValidName(name) then NameOk
      else ControlCharacter
  {
    if HasControl(name) {
      var i :| 0 <= i < |name| && ControlAt(name, i);
      assert name[i] < 0x20 || name[i] == 0x7F || C1Control(name, i);
    } else {
      forall i | 0 <= i < |name| ensures name[i] >= 0x20 && name[i] != 0x7F && !C1Control(name, i) {
        assert !ControlAt(name, i);
      }
    }
  }

  // ---- Lexicographic order -----------------------------------------------

  predicate Less(a: Key, b: Key) {
    if b == [] then false
    else if a == [] then true
    else if a[0] != b[0] then a[0] < b[0]
    else Less(a[1..], b[1..])
  }

  lemma {:induction false} LessTotal(a: Key, b: Key)
    ensures a == b <==> !Less(a, b) && !Less(b, a)
    ensures !(Less(a, b) && Less(b, a))
  {
    if a != [] && b != [] && a[0] == b[0] {
      LessTotal(a[1..], b[1..]);
      assert a == [a[0]] + a[1..] && b == [b[0]] + b[1..];
    }
  }

  lemma {:induction false} LessTransitive(a: Key, b: Key, c: Key)
    requires Less(a, b) && Less(b, c)
    ensures Less(a, c)
  {
    if a != [] && a[0] == b[0] == c[0] {
      LessTransitive(a[1..], b[1..], c[1..]);
    }
  }

  /** A shared prefix does not affect the order. */
  lemma {:induction false} LessAfterPrefix(p: Key, a: Key, b: Key)
    ensures Less(p + a, p + b) <==> Less(a, b)
  {
    if p == [] {
      assert p + a == a && p + b == b;
    } else {
      LessAfterPrefix(p[1..], a, b);
      assert (p + a)[1..] == p[1..] + a && (p + b)[1..] == p[1..] + b;
    }
  }

  /** When the heads are ordered, tails of equal-length heads do not matter. */
  lemma {:induction false} LessBeforeSuffix(a: Key, b: Key, x: Key, y: Key)
    requires |a| == |b| && a != b
    ensures Less(a + x, b + y) <==> Less(a, b)
  {
    if a[0] == b[0] {
      LessBeforeSuffix(a[1..], b[1..], x, y);
    }
    assert (a + x)[1..] == a[1..] + x && (b + y)[1..] == b[1..] + y;
  }

  // ---- Zero-padded decimals ----------------------------------------------

  function Pow10(width: nat): (p: nat)
    ensures p > 0
  {
    if width == 0 then 1 else 10 * Pow10(width - 1)
  }

  /** `format!("{v:0width}")` for a non-negative `v` that fits. */
  function Decimal(width: nat, v: nat): (s: bytes)
    ensures |s| == width
    ensures forall i :: 0 <= i < width ==> 0x30 <= s[i] <= 0x39
  {
    if width == 0 then [] else Decimal(width - 1, v / 10) + [0x30 + v % 10]
  }

  lemma {:induction false} DecimalInjective(width: nat, a: nat, b: nat)
    requires a < Pow10(width) && b < Pow10(width) && Decimal(width, a) == Decimal(width, b)
    ensures a == b
  {
    if width > 0 {
      var da, db := Decimal(width, a), Decimal(width, b);
      assert da[..width - 1] == Decimal(width - 1, a / 10);
      assert db[..width - 1] == Decimal(width - 1, b / 10);
      assert da[width - 1] == db[width - 1];
      DecimalInjective(width - 1, a / 10, b / 10);
    }
  }

  lemma {:induction false} LessDigit(x: byte, y: byte)
    ensures Less([x], [y]) <==> x < y
  {
  }

  /** At a fixed width, byte order is numeric order. */
  lemma {:induction false} DecimalOrder(width: nat, a: nat, b: nat)
    requires a < Pow10(width) && b < Pow10(width)
    ensures Less(Decimal(width, a), Decimal(width, b)) <==> a < b
  {
    if width > 0 {
      hide Less;
      var ha, hb := Decimal(width - 1, a / 10), Decimal(width - 1, b / 10);
      DecimalOrder(width - 1, a / 10, b / 10);
      if ha == hb {
        DecimalInjective(width - 1, a / 10, b / 10);
        LessAfterPrefix(ha, [0x30 + a % 10], [0x30 + b % 10]);
        LessDigit(0x30 + a % 10, 0x30 + b % 10);
      } else {
        LessBeforeSuffix(ha, hb, [0x30 + a % 10], [0x30 + b % 10]);
        assert a / 10 != b / 10;
      }
    }
  }

  lemma {:induction false} OffsetFits()
    ensures Pow10(19) > TWO_63 && Pow10(20) > TWO_63
  {
    assert Pow10(5) == 100_000 by {
      assert Pow10(2) == 100;
      assert Pow10(4) == 10 * (10 * Pow10(2));
    }
    assert Pow10(9) == 1_000_000_000 by { assert Pow10(7) == 10 * (10 * Pow10(5)); }
    assert Pow10(13) == 10_000_000_000_000 by { assert Pow10(11) == 10 * (10 * Pow10(9)); }
    assert Pow10(17) == 100_000_000_000_000_000 by { assert Pow10(15) == 10 * (10 * Pow10(13)); }
  }

  /** `format!("{offset:020}")`: the sign takes one of the twenty places. */
  function PaddedOffset(offset: i64): (s: bytes)
    ensures |s| == 20
  {
    if offset >= 0 then Decimal(20, offset) else [0x2D] + Decimal(19, -(offset as int))
  }

  /**
   The byte order of padded offsets: numeric for non-negative offsets, but
   negative offsets sort in reverse.
   */
  lemma {:induction false} PaddedOffsetOrder(a: i64, b: i64)
    ensures Less(PaddedOffset(a), PaddedOffset(b)) <==>
            if a >= 0 && b >= 0 then a < b
            else if a < 0 && b < 0 then b < a
            else a < b
  {
    OffsetFits();
    if a >= 0 && b >= 0 {
      DecimalOrder(20, a, b);
    } else if a < 0 && b < 0 {
      var x, y := -(a as int), -(b as int);
      DecimalOrder(19, x, y);
      LessAfterPrefix([0x2D], Decimal(19, x), Decimal(19, y));
    }
  }

  // ---- Keys ----------------------------------------------------------------

  /** `<topic>\x00`: the scan prefix of a topic in every store. */
  function TopicPrefix(topic: Topic): (k: Key) {
    topic + [SEP]
  }

  function LogKey(topic: Topic, offset: i64): (k: Key) {
    TopicPrefix(topic) + PaddedOffset(offset)
  }

  function LogRangeStart(topic: Topic, from: i64): (k: Key) {
    LogKey(topic, from)
  }

  function LogRangeEnd(topic: Topic, to: i64): (k: Key) {
    LogKey(topic, to) + [0xFF]
  }

  function DedupeKey(topic: Topic, messageId: bytes): (k: Key) {
    TopicPrefix(topic) + messageId + [SEP]
  }

  const HEAD: bytes := [0x68, 0x65, 0x61, 0x64]

  function OffsetKey(topic: Topic): (k: Key) {
    TopicPrefix(topic) + HEAD
  }

  /** The first separator of `topic\x00rest` ends the topic. */
  lemma {:induction false} TopicOfKey(t: Topic, x: bytes, u: Topic, y: bytes)
    requires NulFree(t) && NulFree(u)
    requires TopicPrefix(t) <= TopicPrefix(u) + y || TopicPrefix(t) + x == TopicPrefix(u) + y
    ensures t == u
  {
    var k := TopicPrefix(u) + y;
    assert k[|t|] == SEP && k[|u|] == SEP;
    assert forall i :: 0 <= i < |t| ==> k[i] == t[i];
    assert forall i :: 0 <= i < |u| ==> k[i] == u[i];
  }

  /** A log key starts with a topic's prefix exactly when it belongs to that topic. */
  lemma {:induction false} LogPrefixIsolates(t: Topic, u: Topic, offset: i64)
    requires NulFree(t) && NulFree(u)
    ensures TopicPrefix(t) <= LogKey(u, offset) <==> t == u
  {
    if TopicPrefix(t) <= LogKey(u, offset) {
      TopicOfKey(t, [], u, PaddedOffset(offset));
    }
  }

  /** The same isolation for dedupe keys, whatever bytes the message id holds. */
  lemma {:induction false} DedupePrefixIsolates(t: Topic, u: Topic, messageId: bytes)
    requires NulFree(t) && NulFree(u)
    ensures TopicPrefix(t) <= DedupeKey(u, messageId) <==> t == u
  {
    assert DedupeKey(u, messageId) == TopicPrefix(u) + (messageId + [SEP]);
    if TopicPrefix(t) <= DedupeKey(u, messageId) {
      TopicOfKey(t, [], u, messageId + [SEP]);
    }
  }

  lemma {:induction false} LogKeyInjective(t: Topic, a: i64, u: Topic, b: i64)
    requires NulFree(t) && NulFree(u)
    requires LogKey(t, a) == LogKey(u, b)
    ensures t == u && a == b
  {
    TopicOfKey(t, PaddedOffset(a), u, PaddedOffset(b));
    assert PaddedOffset(a) == LogKey(t, a)[|t| + 1..] == PaddedOffset(b);
    PaddedOffsetOrder(a, b);
    PaddedOffsetOrder(b, a);
    LessTotal(PaddedOffset(a), PaddedOffset(b));
  }

  lemma {:induction false} DedupeKeyInjective(t: Topic, m: bytes, u: Topic, n: bytes)
    requires NulFree(t) && NulFree(u)
    requires DedupeKey(t, m) == DedupeKey(u, n)
    ensures t == u && m == n
  {
    assert DedupeKey(t, m) == TopicPrefix(t) + (m + [SEP]);
    assert DedupeKey(u, n) == TopicPrefix(u) + (n + [SEP]);
    TopicOfKey(t, m + [SEP], u, n + [SEP]);
    var k := DedupeKey(t, m);
    assert m == k[|t| + 1..|k| - 1] == n;
  }

  /** Offset keys end in a fixed suffix, so they are injective for every topic. */
  lemma {:induction false} OffsetKeyInjective(t: Topic, u: Topic)
    ensures OffsetKey(t) == OffsetKey(u) <==> t == u
  {
    if OffsetKey(t) == OffsetKey(u) {
      var k := OffsetKey(t);
      assert t == k[..|k| - 5] == u;
    }
  }

  /** Keys of different topics are ordered by their prefixes, whatever follows. */
  lemma {:induction false} DifferentTopics(t: Topic, u: Topic, x: bytes, y: bytes)
    requires NulFree(t) && NulFree(u) && t != u
    ensures Less(TopicPrefix(t) + x, TopicPrefix(u) + y) <==> Less(TopicPrefix(t), TopicPrefix(u))
  {
    var p, q := TopicPrefix(t), TopicPrefix(u);
    if t != [] && u != [] && t[0] == u[0] {
      DifferentTopics(t[1..], u[1..], x, y);
      assert t == [t[0]] + t[1..] && u == [u[0]] + u[1..];
      assert (p + x)[1..] == TopicPrefix(t[1..]) + x && (q + y)[1..] == TopicPrefix(u[1..]) + y;
      assert p[1..] == TopicPrefix(t[1..]) && q[1..] == TopicPrefix(u[1..]);
    } else {
      assert (p + x)[0] == p[0] && (q + y)[0] == q[0] && p[0] != q[0];
    }
  }

  /**
   A log key lies in `[LogRangeStart(t, from), LogRangeEnd(t, to))` exactly when
   it belongs to `t` and its offset is between `from` and `to`, inclusive. The
   bounds may be negative; by `PaddedOffsetOrder` the offset may not.
   */
  lemma {:induction false} RangeSelectsTopicAndOffsets(t: Topic, from: i64, to: i64, u: Topic, offset: i64)
    requires NulFree(t) && NulFree(u)
    requires offset >= 0
    ensures !Less(LogKey(u, offset), LogRangeStart(t, from)) && Less(LogKey(u, offset), LogRangeEnd(t, to))
       <==> u == t && from <= offset <= to
  {
    var p := TopicPrefix(t);
    assert LogRangeEnd(t, to) == p + (PaddedOffset(to) + [0xFF]);
    if u != t {
      DifferentTopics(u, t, PaddedOffset(offset), PaddedOffset(from));
      DifferentTopics(u, t, PaddedOffset(offset), PaddedOffset(to) + [0xFF]);
    } else {
      LessAfterPrefix(p, PaddedOffset(offset), PaddedOffset(from));
      LessAfterPrefix(p, PaddedOffset(offset), PaddedOffset(to) + [0xFF]);
      PaddedOffsetOrder(offset, from);
      PaddedOffsetOrder(offset, to);
      if offset == to {
        LessAfterPrefix(PaddedOffset(to), [], [0xFF]);
        assert PaddedOffset(to) + [] == PaddedOffset(to);
      } else {
        PaddedOffsetOrder(to, offset);
        LessTotal(PaddedOffset(offset), PaddedOffset(to));
        LessBeforeSuffix(PaddedOffset(offset), PaddedOffset(to), [], [0xFF]);
        assert PaddedOffset(offset) + [] == PaddedOffset(offset);
      }
    }
  }

  /** Within a topic, log keys sort by offset. */
  lemma {:induction false} LogKeyOrder(t: Topic, a: i64, b: i64)
    requires a >= 0 && b >= 0
    ensures Less(LogKey(t, a), LogKey(t, b)) <==> a < b
  {
    LessAfterPrefix(TopicPrefix(t), PaddedOffset(a), PaddedOffset(b));
    PaddedOffsetOrder(a, b);
  }
}
