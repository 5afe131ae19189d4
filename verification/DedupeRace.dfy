/**
 Any number of threads racing through the sled store's compare-and-swap loop on
 one key. Every thread reads its clock once, before the loop.
 */
module DedupeRace {
  import opened Sequences
  import opened Bytes
  import opened DedupeStore

  datatype Call = Call(now: int, window: nat) {
    function Expires(): int { now + window }
  }

  /** Where a thread is: about to read the cell, about to exchange it, or done. */
  datatype Thread =
    | Reading(call: Call)
    | Exchanging(call: Call, expected: Option<bytes>)
    | Returned(call: Call, isNew: bool)

  /** A call at the instant it takes effect. */
  datatype Effect = Effect(thread: nat, call: Call, isNew: bool)

  /** `effects` records the calls that have taken effect, in that order. */
  datatype Race = Race(cell: Option<bytes>, threads: seq<Thread>, effects: seq<Effect>)

  datatype Step = Read(i: nat) | Exchange(i: nat)

  ghost predicate Enabled(s: Race, step: Step) {
    && step.i < |s.threads|
    && (step.Read? ==> s.threads[step.i].Reading?)
    && (step.Exchange? ==> s.threads[step.i].Exchanging?)
    && var c := s.threads[step.i].call; -TWO_63 <= c.Expires() < TWO_63
  }

  function Next(s: Race, step: Step): Race
    requires Enabled(s, step)
  {
    var i, t := step.i, s.threads[step.i];
    match step
    case Read(_) =>
      if s.cell.Some? && |s.cell.value| >= 8 then
        if Decode(s.cell.value).value > t.call.now then
          s.(threads := s.threads[i := Returned(t.call, false)], effects := s.effects + [Effect(i, t.call, false)])
        else s.(threads := s.threads[i := Exchanging(t.call, s.cell)])
      else s.(threads := s.threads[i := Exchanging(t.call, None)])
    case Exchange(_) =>
      if s.cell == t.expected then
        Race(Some(I64ToBytes(t.call.Expires())),
             s.threads[i := Returned(t.call, true)],
             s.effects + [Effect(i, t.call, true)])
      else s.(threads := s.threads[i := Reading(t.call)])
  }

  ghost predicate Execution(run: seq<Race>, steps: seq<Step>) {
    && |run| == |steps| + 1
    && (forall i :: 0 <= i < |run[0].threads| ==> run[0].threads[i].Reading?)
    && run[0].effects == [] && CellOk(run[0].cell)
    && forall k :: 0 <= k < |steps| ==> Enabled(run[k], steps[k]) && run[k + 1] == Next(run[k], steps[k])
  }

  /** The cell holds nothing, or an expiry that the store wrote. */
  ghost predicate CellOk(cell: Option<bytes>) {
    cell.Some? ==> |cell.value| == 8
  }

  function CellValue(cell: Option<bytes>): Option<int> {
    match cell
    case None => None
    case Some(v) => Decode(v)
  }

  /** The in-memory store's atomic step on this key, repeated. */
  function Atomic(cell: Option<int>, effects: seq<Effect>): (Option<int>, seq<bool>) {
    if effects == [] then (cell, [])
    else
      var n := |effects| - 1;
      var (before, verdicts) := Atomic(cell, effects[..n]);
      var (expires, isNew) := CheckCell(before, effects[n].call.now, effects[n].call.window);
      (Some(expires), verdicts + [isNew])
  }

  function IsNew(): Effect -> bool { (e: Effect) => e.isNew }

  /** The calls that returned fresh, in the order of their exchanges. */
  function Winners(effects: seq<Effect>): seq<Effect> { Filter(effects, IsNew()) }

  ghost predicate SpacedOut(winners: seq<Effect>) {
    forall i, j :: 0 <= i < j < |winners| ==> winners[j].call.now >= winners[i].call.Expires()
  }

  ghost predicate Inv(s: Race, initial: Option<bytes>) {
    CellOk(s.cell) && ThreadsOk(s.threads) && Linear(s, initial) && Spacing(s) && EffectsMatch(s)
  }

  /** A thread only tries to replace an expiry that its own clock has passed. */
  ghost predicate ThreadsOk(threads: seq<Thread>) {
    forall i :: 0 <= i < |threads| && threads[i].Exchanging? && threads[i].expected.Some? ==>
      var v := threads[i].expected.value; |v| == 8 && I64FromBytes(v) <= threads[i].call.now
  }

  ghost predicate Linear(s: Race, initial: Option<bytes>) {
    Atomic(CellValue(initial), s.effects) == (CellValue(s.cell), Map(s.effects, IsNew()))
  }

  ghost predicate Spacing(s: Race) {
    && SpacedOut(Winners(s.effects))
    && (Winners(s.effects) != [] ==> CellValue(s.cell) == Some(LastWinner(s).call.Expires()))
  }

  function LastWinner(s: Race): Effect
    requires Winners(s.effects) != []
  {
    Winners(s.effects)[|Winners(s.effects)| - 1]
  }

  function ByThread(i: nat): Effect -> bool { (e: Effect) => e.thread == i }

  /** The effect that a thread must have had: its answer if it has returned, and none otherwise. */
  function EffectsDue(i: nat, t: Thread): seq<Effect> {
    if t.Returned? then [Effect(i, t.call, t.isNew)] else []
  }

  /** Every thread has taken effect exactly once if it has returned, and not at all otherwise. */
  ghost predicate EffectsMatch(s: Race) {
    && (forall k :: 0 <= k < |s.effects| ==> s.effects[k].thread < |s.threads|)
    && (forall i :: 0 <= i < |s.threads| ==> Filter(s.effects, ByThread(i)) == EffectsDue(i, s.threads[i]))
  }

  lemma {:induction false} CellDecodes(v: bytes)
    requires |v| == 8
    ensures CellValue(Some(v)) == Some(I64FromBytes(v))
  {
    assert v[..8] == v;
  }

  /** A call takes effect as the atomic step on the current cell would have it. */
  lemma {:induction false} LinearSnoc(s: Race, s': Race, initial: Option<bytes>, e: Effect)
    requires Linear(s, initial) && s'.effects == s.effects + [e]
    requires CheckCell(CellValue(s.cell), e.call.now, e.call.window).1 == e.isNew
    requires CellValue(s'.cell) == Some(CheckCell(CellValue(s.cell), e.call.now, e.call.window).0)
    ensures Linear(s', initial)
  {
    assert s'.effects[..|s.effects|] == s.effects;
    assert Map(s'.effects, IsNew()) == Map(s.effects, IsNew()) + [e.isNew];
  }

  lemma {:induction false} WinnersSnoc(s: Race, s': Race, e: Effect)
    requires Spacing(s) && s'.effects == s.effects + [e]
    requires e.isNew ==> CellValue(s'.cell) == Some(e.call.Expires())
    requires e.isNew && Winners(s.effects) != [] ==> e.call.now >= LastWinner(s).call.Expires()
    requires !e.isNew ==> s'.cell == s.cell
    ensures Spacing(s')
  {
    FilterAppend(s.effects, [e], IsNew());
    assert Winners([e]) == if e.isNew then [e] else [];
  }

  lemma {:induction false} EffectsSnoc(s: Race, s': Race, i: nat, isNew: bool)
    requires EffectsMatch(s) && i < |s.threads| && !s.threads[i].Returned?
    requires s'.threads == s.threads[i := Returned(s.threads[i].call, isNew)]
    requires s'.effects == s.effects + [Effect(i, s.threads[i].call, isNew)]
    ensures EffectsMatch(s')
  {
    var e := Effect(i, s.threads[i].call, isNew);
    forall j | 0 <= j < |s'.threads| ensures Filter(s'.effects, ByThread(j)) == EffectsDue(j, s'.threads[j]) {
      FilterAppend(s.effects, [e], ByThread(j));
      assert Filter([e], ByThread(j)) == if j == i then [e] else [];
      assert Filter(s.effects, ByThread(j)) == EffectsDue(j, s.threads[j]);
    }
  }

  /** A thread that moves without taking effect disturbs nothing. */
  lemma {:induction false} MoveKeeps(s: Race, i: nat, t: Thread, initial: Option<bytes>)
    requires Inv(s, initial) && i < |s.threads| && !s.threads[i].Returned? && !t.Returned?
    requires t.Exchanging? && t.expected.Some? ==>
               var v := t.expected.value; |v| == 8 && I64FromBytes(v) <= t.call.now
    ensures Inv(s.(threads := s.threads[i := t]), initial)
  {
    var s' := s.(threads := s.threads[i := t]);
    forall j | 0 <= j < |s'.threads| ensures Filter(s'.effects, ByThread(j)) == EffectsDue(j, s'.threads[j]) {
      assert Filter(s.effects, ByThread(j)) == EffectsDue(j, s.threads[j]);
    }
  }

  lemma {:induction false} ReadKeeps(s: Race, i: nat, initial: Option<bytes>)
    requires Inv(s, initial) && Enabled(s, Read(i))
    ensures Inv(Next(s, Read(i)), initial)
  {
    hide Linear, Spacing, EffectsMatch, I64FromBytes;
    var c, s' := s.threads[i].call, Next(s, Read(i));
    if s.cell == None {
      MoveKeeps(s, i, Exchanging(c, None), initial);
    } else {
      CellDecodes(s.cell.value);
      if I64FromBytes(s.cell.value) > c.now {
        var e := Effect(i, c, false);
        LinearSnoc(s, s', initial, e);
        WinnersSnoc(s, s', e);
        EffectsSnoc(s, s', i, false);
      } else {
        MoveKeeps(s, i, Exchanging(c, s.cell), initial);
      }
    }
  }

  lemma {:induction false} ExchangeKeeps(s: Race, i: nat, initial: Option<bytes>)
    requires Inv(s, initial) && Enabled(s, Exchange(i))
    ensures Inv(Next(s, Exchange(i)), initial)
  {
    hide Linear, EffectsMatch, I64FromBytes, I64ToBytes;
    var t, s' := s.threads[i], Next(s, Exchange(i));
    if s.cell == t.expected {
      var e := Effect(i, t.call, true);
      I64RoundTrip(t.call.Expires());
      CellDecodes(I64ToBytes(t.call.Expires()));
      if s.cell.Some? { CellDecodes(s.cell.value); }
      LinearSnoc(s, s', initial, e);
      WinnersSnoc(s, s', e);
      EffectsSnoc(s, s', i, true);
    } else {
      MoveKeeps(s, i, Reading(t.call), initial);
    }
  }

  lemma {:induction false} Invariant(run: seq<Race>, steps: seq<Step>, k: nat)
    requires Execution(run, steps) && k < |run|
    ensures Inv(run[k], run[0].cell)
  {
    if k > 0 {
      Invariant(run, steps, k - 1);
      match steps[k - 1]
      case Read(i) => ReadKeeps(run[k - 1], i, run[0].cell);
      case Exchange(i) => ExchangeKeeps(run[k - 1], i, run[0].cell);
    } else {
      assert Map(run[0].effects, IsNew()) == [];
      forall i | 0 <= i < |run[0].threads| ensures Filter(run[0].effects, ByThread(i)) == [] { }
    }
  }

  /**
   Whatever the interleaving and the clocks, two calls that both return fresh
   read clocks at least the earlier call's window apart.
   */
  lemma {:induction false} FreshCallsAreSpaced(run: seq<Race>, steps: seq<Step>)
    requires Execution(run, steps)
    ensures SpacedOut(Winners(run[|steps|].effects))
  {
    Invariant(run, steps, |steps|);
  }

  /**
   The loop is the in-memory store's single atomic step: the calls that have
   returned took effect exactly once each, and replaying them atomically in that
   order gives every caller's answer and the value now in the cell.
   */
  lemma {:induction false} LoopIsAtomic(run: seq<Race>, steps: seq<Step>)
    requires Execution(run, steps)
    ensures var s := run[|steps|];
      && EffectsMatch(s)
      && Atomic(CellValue(run[0].cell), s.effects) == (CellValue(s.cell), Map(s.effects, IsNew()))
  {
    Invariant(run, steps, |steps|);
  }

  /** A call that nobody disturbs returns after one read and at most one exchange, with the atomic step's answer. */
  lemma {:induction false} UndisturbedCall(s: Race, i: nat)
    requires i < |s.threads| && s.threads[i].Reading? && Enabled(s, Read(i)) && CellOk(s.cell)
    ensures var call, cell := s.threads[i].call, CellValue(s.cell); var s1 := Next(s, Read(i));
      if cell.Some? && cell.value > call.now then
        s1.threads[i] == Returned(call, false) && s1.cell == s.cell
      else
        && Enabled(s1, Exchange(i))
        && var s2 := Next(s1, Exchange(i));
        s2.threads[i] == Returned(call, true) && CellValue(s2.cell) == Some(call.now + call.window)
  {
    hide I64FromBytes, I64ToBytes;
    var call := s.threads[i].call;
    I64RoundTrip(call.Expires());
    CellDecodes(I64ToBytes(call.Expires()));
    if s.cell.Some? { CellDecodes(s.cell.value); }
  }

  /** A call whose exchange met another value reads again, and has changed nothing. */
  lemma {:induction false} DisturbedCallRetries(s: Race, i: nat)
    requires Enabled(s, Exchange(i)) && s.cell != s.threads[i].expected
    ensures Next(s, Exchange(i)) == s.(threads := s.threads[i := Reading(s.threads[i].call)])
  {
  }
}
