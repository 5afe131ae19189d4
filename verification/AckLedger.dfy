/** Outstanding acknowledgements: deadlines per session and message, with caps on both. */
module AckLedger {
  import opened Sequences
  import opened Bytes

  type Session = bytes
  type Message = bytes
  type Bucket = map<Message, i64>
  type Ledger = map<Session, Bucket>

  const MAX_SESSIONS: nat := 100_000
  const DEFAULT_CAP: nat := 10_000

  datatype Op =
    | Track(session: Session, message: Message, now: i64, timeoutMs: nat)
    | Complete(session: Session, message: Message)
    | Reap(session: Session, now: i64)
    | ReapAll(now: i64)
    | Forget(session: Session)

  // ---- One call -----------------------------------------------------------------------

  /** `now + timeout`, saturating at the largest 64-bit integer. */
  function Deadline(now: i64, timeoutMs: nat): (d: i64)
    ensures now <= d <= now as int + timeoutMs
    ensures d as int < now as int + timeoutMs ==> d == 0x7FFF_FFFF_FFFF_FFFF
  {
    if now as int + timeoutMs <= 0x7FFF_FFFF_FFFF_FFFF then now + timeoutMs else 0x7FFF_FFFF_FFFF_FFFF
  }

  function BucketOf(l: Ledger, s: Session): Bucket { if s in l then l[s] else map[] }

  function CellOf(l: Ledger, s: Session, m: Message): Option<i64> {
    if m in BucketOf(l, s) then Some(BucketOf(l, s)[m]) else None
  }

  function TrackStep(cap: nat, l: Ledger, s: Session, m: Message, deadline: i64): (Ledger, bool) {
    if s !in l && |l| >= MAX_SESSIONS then (l, false)
    else
      var bucket := BucketOf(l, s);
      if |bucket| >= cap then (l[s := bucket], false) else (l[s := bucket[m := deadline]], true)
  }

  function CompleteStep(l: Ledger, s: Session, m: Message): (Ledger, bool) {
    if s in l && m in l[s] then (l[s := l[s] - {m}], true) else (l, false)
  }

  function Due(b: Bucket, now: i64): set<Message> { set m | m in b && b[m] <= now }

  function ReapStep(l: Ledger, s: Session, now: i64): (Ledger, set<Message>) {
    if s in l then (l[s := l[s] - Due(l[s], now)], Due(l[s], now)) else (l, {})
  }

  /** The entries of all sessions whose deadline has passed. */
  function AllDue(l: Ledger, now: i64): set<(Session, Message)> {
    set s, m | s in l && m in l[s] && l[s][m] <= now :: (s, m)
  }

  /** Drop the sessions that hold nothing. */
  function Occupied(l: Ledger): Ledger { map s | s in l && l[s] != map[] :: l[s] }

  function Unexpired(l: Ledger, now: i64): Ledger { map s | s in l :: l[s] - Due(l[s], now) }

  function ReapAllStep(l: Ledger, now: i64): (Ledger, nat) {
    (Occupied(Unexpired(l, now)), |AllDue(l, now)|)
  }

  // ---- The manager ------------------------------------------------------------------------

  /** Remove the expired entries of one bucket, one at a time. */
  method Expire(bucket: Bucket, now: i64) returns (kept: Bucket, expired: seq<Message>)
    ensures kept == bucket - Due(bucket, now)
    ensures |expired| == |Due(bucket, now)| && forall m :: m in expired <==> m in Due(bucket, now)
  {
    kept, expired := bucket, [];
    var rest := Due(bucket, now);
    while rest != {}
      invariant rest <= Due(bucket, now)
      invariant kept == bucket - (Due(bucket, now) - rest)
      invariant |expired| + |rest| == |Due(bucket, now)|
      invariant forall m :: m in expired <==> m in Due(bucket, now) && m !in rest
      decreases |rest|
    {
      var m :| m in rest;
      kept := kept - {m};
      expired := expired + [m];
      rest := rest - {m};
    }
    assert Due(bucket, now) - {} == Due(bucket, now);
  }

  class AckManager {
    const cap: nat
    var outstanding: Ledger

    constructor (cap: nat)
      ensures this.cap == cap && outstanding == map[]
    {
      this.cap := cap;
      outstanding := map[];
    }

    constructor Default()
      ensures cap == 10_000 && outstanding == map[]
    {
      cap := DEFAULT_CAP;
      outstanding := map[];
    }

    method Track(session: Session, message: Message, timeoutMs: nat, now: i64) returns (ok: bool)
      modifies this
      ensures (outstanding, ok) == TrackStep(cap, old(outstanding), session, message, Deadline(now, timeoutMs))
    {
      var deadline := Deadline(now, timeoutMs);
      if session !in outstanding && |outstanding| >= MAX_SESSIONS { return false; }
      var entry := if session in outstanding then outstanding[session] else map[];
      outstanding := outstanding[session := entry];
      if |entry| >= cap { return false; }
      entry := entry[message := deadline];
      outstanding := outstanding[session := entry];
      assert outstanding == old(outstanding)[session := entry];
      ok := true;
    }

    method Complete(session: Session, message: Message) returns (found: bool)
      modifies this
      ensures (outstanding, found) == CompleteStep(old(outstanding), session, message)
    {
      found := session in outstanding && message in outstanding[session];
      if found {
        outstanding := outstanding[session := outstanding[session] - {message}];
      }
    }

    method ReapTimeouts(session: Session, now: i64) returns (expired: seq<Message>)
      modifies this
      ensures outstanding == ReapStep(old(outstanding), session, now).0
      ensures |expired| == |ReapStep(old(outstanding), session, now).1|
      ensures forall m :: m in expired <==> m in ReapStep(old(outstanding), session, now).1
    {
      if session !in outstanding { return []; }
      var kept;
      kept, expired := Expire(outstanding[session], now);
      outstanding := outstanding[session := kept];
    }

    method Forget(session: Session)
      modifies this
      ensures outstanding == old(outstanding) - {session}
    {
      outstanding := outstanding - {session};
    }

    method ReapAllTimeouts(now: i64) returns (total: nat)
      modifies this
      ensures (outstanding, total) == ReapAllStep(old(outstanding), now)
    {
      var l, empty;
      l, empty, total := ReapSessions(outstanding, now);
      assert l - empty == Occupied(l);
      outstanding := l - empty;
    }
  }

  /** Reap session by session, in any order, and note the sessions that hold nothing. */
  method ReapSessions(outstanding: Ledger, now: i64) returns (l: Ledger, empty: set<Session>, total: nat)
    ensures l == Unexpired(outstanding, now) && empty == EmptyOutside(l, {})
    ensures total == |AllDue(outstanding, now)|
  {
    hide AllDue, Due, EmptyOutside, ReapedBut, Unexpired;
    var rest := outstanding.Keys;
    l, empty, total := outstanding, {}, 0;
    NothingReaped(outstanding, now);
    while rest != {}
      invariant rest <= outstanding.Keys
      invariant l == ReapedBut(outstanding, rest, now) && empty == EmptyOutside(l, rest)
      invariant total == |AllDue(outstanding - rest, now)|
      decreases |rest|
    {
      var s :| s in rest;
      DueOneMore(outstanding, rest, s, now);
      ReapedOneMore(outstanding, rest, s, now);
      var kept, expired := Expire(l[s], now);
      l := l[s := kept];
      total := total + |expired|;
      if kept == map[] { empty := empty + {s}; }
      rest := rest - {s};
    }
    assert outstanding - {} == outstanding;
    AllReaped(outstanding, now);
  }

  lemma {:induction false} AllReaped(l: Ledger, now: i64)
    ensures ReapedBut(l, {}, now) == Unexpired(l, now)
  {
    hide Due;
  }

  lemma {:induction false} NothingReaped(l: Ledger, now: i64)
    ensures l == ReapedBut(l, l.Keys, now) && EmptyOutside(l, l.Keys) == {} && AllDue(l - l.Keys, now) == {}
  {
  }

  lemma {:induction false} ReapedOneMore(l: Ledger, rest: set<Session>, s: Session, now: i64)
    requires s in rest && rest <= l.Keys
    ensures var kept, before := l[s] - Due(l[s], now), ReapedBut(l, rest, now);
      && s in before && before[s] == l[s]
      && ReapedBut(l, rest - {s}, now) == before[s := kept]
      && EmptyOutside(before[s := kept], rest - {s}) == EmptyOutside(before, rest) + if kept == map[] then {s} else {}
  {
  }

  /** The ledger when the sessions of `rest` are still to be reaped. */
  function ReapedBut(l: Ledger, rest: set<Session>, now: i64): Ledger {
    map s | s in l :: if s in rest then l[s] else l[s] - Due(l[s], now)
  }

  function EmptyOutside(l: Ledger, rest: set<Session>): set<Session> {
    set s | s in l && s !in rest && l[s] == map[]
  }

  lemma {:induction false} DueOneMore(l: Ledger, rest: set<Session>, s: Session, now: i64)
    requires s in rest && rest <= l.Keys
    ensures |AllDue(l - (rest - {s}), now)| == |AllDue(l - rest, now)| + |Due(l[s], now)|
  {
    hide AllDue, Due;
    var here := set m | m in Due(l[s], now) :: (s, m);
    var more, less := AllDue(l - (rest - {s}), now), AllDue(l - rest, now);
    TaggedSize(Due(l[s], now), s, here);
    forall p ensures p in more <==> p in less || p in here {
      InAllDue(l - (rest - {s}), now, p);
      InAllDue(l - rest, now, p);
    }
    forall p | p in here ensures p !in less { InAllDue(l - rest, now, p); }
    assert more == less + here && less !! here;
  }

  lemma {:induction false} InAllDue(l: Ledger, now: i64, p: (Session, Message))
    ensures p in AllDue(l, now) <==> p.0 in l && p.1 in Due(l[p.0], now)
  {
    assert p == (p.0, p.1);
  }

  lemma {:induction false} TaggedSize(ms: set<Message>, s: Session, tagged: set<(Session, Message)>)
    requires tagged == set m | m in ms :: (s, m)
    ensures |tagged| == |ms|
    decreases |ms|
  {
    if ms != {} {
      var m :| m in ms;
      TaggedSize(ms - {m}, s, tagged - {(s, m)});
    }
  }

  // ---- Runs -----------------------------------------------------------------------------------

  function Apply(cap: nat, l: Ledger, op: Op): Ledger {
    match op
    case Track(s, m, now, timeoutMs) => TrackStep(cap, l, s, m, Deadline(now, timeoutMs)).0
    case Complete(s, m) => CompleteStep(l, s, m).0
    case Reap(s, now) => ReapStep(l, s, now).0
    case ReapAll(now) => ReapAllStep(l, now).0
    case Forget(s) => l - {s}
  }

  function Run(cap: nat, ops: seq<Op>): Ledger {
    if ops == [] then map[] else Apply(cap, Run(cap, ops[..|ops| - 1]), ops[|ops| - 1])
  }

  ghost predicate WithinCaps(cap: nat, l: Ledger) {
    |l| <= MAX_SESSIONS && forall s :: s in l ==> |l[s]| <= cap
  }

  lemma {:induction false} FewerKeys<K, V>(a: map<K, V>, b: map<K, V>)
    requires a.Keys <= b.Keys
    ensures |a| <= |b|
  {
    assert |a.Keys| == |a| && |b.Keys| == |b|;
    SubsetSize(a.Keys, b.Keys);
  }

  lemma {:induction false} SubsetSize<K>(a: set<K>, b: set<K>)
    requires a <= b
    ensures |a| <= |b|
  {
    assert b == a + (b - a);
  }

  lemma {:induction false} ReapKeepsCaps(cap: nat, l: Ledger, now: i64)
    requires WithinCaps(cap, l)
    ensures WithinCaps(cap, ReapAllStep(l, now).0)
  {
    var l' := ReapAllStep(l, now).0;
    FewerKeys(l', l);
    forall s | s in l' ensures |l'[s]| <= cap { FewerKeys(l'[s], l[s]); }
  }

  lemma {:induction false} StepKeepsCaps(cap: nat, l: Ledger, op: Op)
    requires WithinCaps(cap, l)
    ensures WithinCaps(cap, Apply(cap, l, op))
  {
    var l' := Apply(cap, l, op);
    if op.ReapAll? {
      ReapKeepsCaps(cap, l, op.now);
    } else if !op.Track? {
      FewerKeys(l', l);
      forall s | s in l' ensures |l'[s]| <= cap { FewerKeys(l'[s], l[s]); }
    }
  }

  /** Over every run the number of sessions and each session's entries stay within their caps. */
  lemma {:induction false} CapsHold(cap: nat, ops: seq<Op>)
    ensures WithinCaps(cap, Run(cap, ops))
  {
    if ops != [] {
      CapsHold(cap, ops[..|ops| - 1]);
      StepKeepsCaps(cap, Run(cap, ops[..|ops| - 1]), ops[|ops| - 1]);
    }
  }

  // ---- The life of one entry --------------------------------------------------------------------

  datatype Event = Nothing | Tracked(deadline: i64) | Overwritten(deadline: i64) | Completed | Reaped | Forgotten

  /** What a call reports to have happened to message `m` of session `s`. */
  function EventOf(cap: nat, l: Ledger, op: Op, s: Session, m: Message): Event {
    match op
    case Track(s', m', now, timeoutMs) =>
      var d := Deadline(now, timeoutMs);
      if (s', m') != (s, m) || !TrackStep(cap, l, s, m, d).1 then Nothing
      else if CellOf(l, s, m).Some? then Overwritten(d) else Tracked(d)
    case Complete(s', m') => if (s', m') == (s, m) && CompleteStep(l, s, m).1 then Completed else Nothing
    case Reap(s', now) => if s' == s && m in ReapStep(l, s, now).1 then Reaped else Nothing
    case ReapAll(now) => if (s, m) in AllDue(l, now) then Reaped else Nothing
    case Forget(s') => if s' == s && CellOf(l, s, m).Some? then Forgotten else Nothing
  }

  function Events(cap: nat, ops: seq<Op>, s: Session, m: Message): seq<Event> {
    if ops == [] then []
    else
      var n := |ops| - 1;
      Events(cap, ops[..n], s, m) + [EventOf(cap, Run(cap, ops[..n]), ops[n], s, m)]
  }

  /** The entry that a history of events leaves behind. */
  function Replay(events: seq<Event>): Option<i64> {
    if events == [] then None
    else
      var n := |events| - 1;
      match events[n]
      case Nothing => Replay(events[..n])
      case Tracked(d) => Some(d)
      case Overwritten(d) => Some(d)
      case _ => None
  }

  lemma {:induction false} ReplaySnoc(events: seq<Event>, e: Event)
    ensures Replay(events + [e]) ==
      match e
      case Nothing => Replay(events)
      case Tracked(d) => Some(d)
      case Overwritten(d) => Some(d)
      case _ => None
  {
    assert (events + [e])[..|events|] == events;
  }

  /** An event says what becomes of the entry, and which events an entry can meet. */
  ghost predicate EntryMoves(cell: Option<i64>, e: Event, cell': Option<i64>) {
    && cell' == (match e
                 case Nothing => cell
                 case Tracked(d) => Some(d)
                 case Overwritten(d) => Some(d)
                 case _ => None)
    && (e.Tracked? ==> cell.None?)
    && (e.Overwritten? || e.Completed? || e.Reaped? || e.Forgotten? ==> cell.Some?)
  }

  lemma {:induction false} TrackEntry(cap: nat, l: Ledger, op: Op, s: Session, m: Message)
    requires op.Track?
    ensures EntryMoves(CellOf(l, s, m), EventOf(cap, l, op, s, m), CellOf(Apply(cap, l, op), s, m))
  {
    hide Deadline;
  }

  lemma {:induction false} LeaveEntry(cap: nat, l: Ledger, op: Op, s: Session, m: Message)
    requires op.Complete? || op.Reap? || op.Forget?
    ensures EntryMoves(CellOf(l, s, m), EventOf(cap, l, op, s, m), CellOf(Apply(cap, l, op), s, m))
  {
  }

  lemma {:induction false} EntryStep(cap: nat, l: Ledger, op: Op, s: Session, m: Message)
    ensures EntryMoves(CellOf(l, s, m), EventOf(cap, l, op, s, m), CellOf(Apply(cap, l, op), s, m))
  {
    if op.Track? {
      TrackEntry(cap, l, op, s, m);
    } else if op.ReapAll? {
      hide ReapAllStep, AllDue;
      ReapAllCell(l, op.now, s, m);
    } else {
      LeaveEntry(cap, l, op, s, m);
    }
  }

  lemma {:induction false} ReapAllCell(l: Ledger, now: i64, s: Session, m: Message)
    ensures CellOf(ReapAllStep(l, now).0, s, m) == if (s, m) in AllDue(l, now) then None else CellOf(l, s, m)
    ensures (s, m) in AllDue(l, now) ==> CellOf(l, s, m).Some?
  {
    var l' := Unexpired(l, now);
    if s in l {
      assert l'[s] == l[s] - Due(l[s], now);
    }
  }

  /** An entry is outstanding, with the deadline of its latest tracking, exactly until it is reported gone. */
  lemma {:induction false} EntryFollowsEvents(cap: nat, ops: seq<Op>, s: Session, m: Message)
    ensures CellOf(Run(cap, ops), s, m) == Replay(Events(cap, ops, s, m))
  {
    if ops != [] {
      var n := |ops| - 1;
      hide Apply, EventOf;
      EntryFollowsEvents(cap, ops[..n], s, m);
      EntryStep(cap, Run(cap, ops[..n]), ops[n], s, m);
      ReplaySnoc(Events(cap, ops[..n], s, m), EventOf(cap, Run(cap, ops[..n]), ops[n], s, m));
    }
  }

  /** A call reaps an entry exactly when it is outstanding and the deadline of its latest tracking has passed. */
  lemma {:induction false} ReapedExactlyWhenDue(cap: nat, ops: seq<Op>, op: Op, now: i64, s: Session, m: Message)
    requires op == Reap(s, now) || op == ReapAll(now)
    ensures EventOf(cap, Run(cap, ops), op, s, m) == Reaped <==>
            var entry := Replay(Events(cap, ops, s, m)); entry.Some? && entry.value <= now
  {
    hide Run, Events, Replay;
    EntryFollowsEvents(cap, ops, s, m);
  }

  /** A completion succeeds exactly when the entry is outstanding; then it is gone. */
  lemma {:induction false} CompletedExactlyWhenOutstanding(cap: nat, ops: seq<Op>, s: Session, m: Message)
    ensures EventOf(cap, Run(cap, ops), Complete(s, m), s, m) == Completed <==> Replay(Events(cap, ops, s, m)).Some?
    ensures CellOf(Run(cap, ops + [Complete(s, m)]), s, m) == None
    ensures forall s', m' :: (s', m') != (s, m) ==>
              CellOf(Run(cap, ops + [Complete(s, m)]), s', m') == CellOf(Run(cap, ops), s', m')
  {
    hide Run, Events, Replay;
    EntryFollowsEvents(cap, ops, s, m);
    RunSnoc(cap, ops, Complete(s, m));
  }

  lemma {:induction false} RunSnoc(cap: nat, ops: seq<Op>, op: Op)
    ensures Run(cap, ops + [op]) == Apply(cap, Run(cap, ops), op)
  {
    assert (ops + [op])[..|ops|] == ops;
  }

  /** Forgetting a session ends every entry of it and none of another. */
  lemma {:induction false} ForgottenExactlyWhenOutstanding(cap: nat, ops: seq<Op>, s: Session)
    ensures forall m :: EventOf(cap, Run(cap, ops), Forget(s), s, m) == Forgotten <==>
                        Replay(Events(cap, ops, s, m)).Some?
    ensures forall m :: CellOf(Run(cap, ops + [Forget(s)]), s, m) == None
    ensures forall s', m :: s' != s ==> CellOf(Run(cap, ops + [Forget(s)]), s', m) == CellOf(Run(cap, ops), s', m)
  {
    hide Run, Events, Replay;
    forall m ensures CellOf(Run(cap, ops), s, m) == Replay(Events(cap, ops, s, m)) {
      EntryFollowsEvents(cap, ops, s, m);
    }
    RunSnoc(cap, ops, Forget(s));
  }

  /**
   A tracking is accepted exactly when the session is known or there is room for
   one more, and the session has fewer entries than the cap: a message that is
   already outstanding needs room as well. It is then outstanding until its
   timeout has passed, and no other entry has changed.
   */
  lemma {:induction false} TrackedExactlyWhenRoom(cap: nat, ops: seq<Op>, s: Session, m: Message,
                                                  now: i64, timeoutMs: nat)
    ensures var l, op := Run(cap, ops), Track(s, m, now, timeoutMs);
      var e := EventOf(cap, l, op, s, m);
      && (e.Tracked? || e.Overwritten? <==>
            (s in l || |l| < 100_000) && (s in l ==> |l[s]| < cap) && (s !in l ==> 0 < cap))
      && (e.Overwritten? ==> Replay(Events(cap, ops, s, m)).Some?)
      && (e.Tracked? ==> Replay(Events(cap, ops, s, m)).None?)
      && (e.Tracked? || e.Overwritten? ==> CellOf(Run(cap, ops + [op]), s, m) == Some(Deadline(now, timeoutMs)))
      && (forall s', m' :: (s', m') != (s, m) ==> CellOf(Run(cap, ops + [op]), s', m') == CellOf(l, s', m'))
  {
    hide Run, Events, Replay, Deadline;
    EntryFollowsEvents(cap, ops, s, m);
    RunSnoc(cap, ops, Track(s, m, now, timeoutMs));
  }

  /** Which sessions are known after a call: only a tracking adds one, and only these calls drop any. */
  lemma {:induction false} KnownSessions(cap: nat, l: Ledger, op: Op)
    ensures Apply(cap, l, op).Keys ==
      match op
      case Track(s, _, _, _) => if s in l || |l| < 100_000 then l.Keys + {s} else l.Keys
      case Complete(_, _) => l.Keys
      case Reap(_, _) => l.Keys
      case ReapAll(now) => set s | s in l && exists m :: m in l[s] && l[s][m] > now
      case Forget(s) => l.Keys - {s}
  {
    if op.ReapAll? {
      var l' := Apply(cap, l, op);
      forall s ensures s in l' <==> s in l && exists m :: m in l[s] && l[s][m] > op.now {
        if s in l {
          var kept := l[s] - Due(l[s], op.now);
          assert forall m :: m in kept <==> m in l[s] && l[s][m] > op.now;
          assert kept != map[] <==> exists m :: m in kept;
        }
      }
    }
  }

  function WasAccepted(): Event -> bool { (e: Event) => e.Tracked? || e.Overwritten? }
  function WasOverwritten(): Event -> bool { (e: Event) => e.Overwritten? }
  function WasCompleted(): Event -> bool { (e: Event) => e.Completed? }
  function WasReaped(): Event -> bool { (e: Event) => e.Reaped? }
  function WasForgotten(): Event -> bool { (e: Event) => e.Forgotten? }

  /**
   Every accepted tracking is overwritten by the next one, completed, reaped or
   forgotten, exactly once, or it is the one that is outstanding.
   */
  lemma {:induction false} EveryTrackingEndsOnce(cap: nat, ops: seq<Op>, s: Session, m: Message)
    ensures var events := Events(cap, ops, s, m);
      |Filter(events, WasAccepted())| ==
      |Filter(events, WasOverwritten())| + |Filter(events, WasCompleted())| + |Filter(events, WasReaped())|
      + |Filter(events, WasForgotten())| + (if CellOf(Run(cap, ops), s, m).Some? then 1 else 0)
  {
    if ops != [] {
      var n := |ops| - 1;
      hide Apply, EventOf;
      EveryTrackingEndsOnce(cap, ops[..n], s, m);
      EntryStep(cap, Run(cap, ops[..n]), ops[n], s, m);
      var events := Events(cap, ops[..n], s, m);
      assert Events(cap, ops, s, m)[..|events|] == events;
    }
  }

  // ---- Reaping everything ----------------------------------------------------------------------------

  /** Reap session after session: the ledger, and how many entries were returned in all. */
  function ReapEach(l: Ledger, order: seq<Session>, now: i64): (Ledger, nat) {
    if order == [] then (l, 0)
    else
      var n := |order| - 1;
      var (l', total) := ReapEach(l, order[..n], now);
      var (l'', expired) := ReapStep(l', order[n], now);
      (l'', total + |expired|)
  }

  function SetOf(order: seq<Session>): set<Session> { set s | s in order }

  lemma {:induction false} SetOfSnoc(order: seq<Session>)
    requires order != []
    ensures SetOf(order) == SetOf(order[..|order| - 1]) + {order[|order| - 1]}
  {
    assert order == order[..|order| - 1] + [order[|order| - 1]];
  }

  lemma {:induction false} ReapEachIs(l: Ledger, order: seq<Session>, now: i64)
    requires forall i :: 0 <= i < |order| ==> order[i] in l
    ensures var done := SetOf(order);
      && ReapEach(l, order, now).0 == ReapedBut(l, l.Keys - done, now)
      && ReapEach(l, order, now).1 == |AllDue(l - (l.Keys - done), now)|
  {
    if order == [] {
      assert AllDue(l - l.Keys, now) == {};
    } else {
      var n := |order| - 1;
      var s := order[n];
      var before := SetOf(order[..n]);
      var done := SetOf(order);
      hide AllDue, Due, SetOf;
      ReapEachIs(l, order[..n], now);
      SetOfSnoc(order);
      if s in before {
        assert done == before;
        DueTwice(l[s], now);
      } else {
        DueOneMore(l, l.Keys - before, s, now);
        assert l.Keys - before - {s} == l.Keys - done;
      }
    }
  }

  lemma {:induction false} DueTwice(b: Bucket, now: i64)
    ensures Due(b - Due(b, now), now) == {} && b - Due(b, now) - {} == b - Due(b, now)
  {
  }

  /**
   Reaping everything at once removes and counts exactly what reaping every
   session in turn does, in any order and with any repetition, and drops the
   sessions that hold nothing.
   */
  lemma {:induction false} ReapAllIsUnionOfReaps(l: Ledger, order: seq<Session>, now: i64)
    requires forall s :: s in order <==> s in l
    ensures ReapAllStep(l, now) == (Occupied(ReapEach(l, order, now).0), ReapEach(l, order, now).1)
  {
    hide AllDue, Due, ReapEach, ReapedBut, Unexpired, Occupied;
    ReapEachIs(l, order, now);
    assert SetOf(order) == l.Keys && l.Keys - l.Keys == {} && l - {} == l;
    AllReaped(l, now);
  }
}
