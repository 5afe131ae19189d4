/**
 One connection's bounded outbound queue: any number of sinks reserve bytes,
 send and roll back, while the writer task drains the channel. All counter
 arithmetic wraps at 2^64, as on an `AtomicUsize`.
 */
module OutboundQueue {
  import opened Bytes
  import opened Tally

  const CHANNEL_CAPACITY: nat := 1024

  /** Where a delivery through a sink stands. */
  datatype Sink =
    | Idle
    | Loaded(len: nat, prev: nat)
    | Reserved(len: nat)
    | Unsent(len: nat)

  datatype Writer =
    | Waiting
    | Writing(len: nat)
    | Leaving(unreleased: nat)
    | Zeroed
    | Gone

  /**
   `queue` holds the payload sizes in the channel. Two history variables: until
   the writer zeroes the counter, `unreserved` counts the payload bytes of
   replies that entered the channel without a reservation; from then on,
   `stranded` counts the bytes that were pending at that moment or came in
   unreserved, less those that were thrown away with the channel. The theorems
   below say what both amount to in terms of the steps of the run.
   */
  datatype Conn = Conn(
    maxBytes: nat,
    inFlight: nat,
    queue: seq<nat>,
    writer: Writer,
    sinks: seq<Sink>,
    unreserved: nat,
    stranded: int
  )

  datatype Step =
    | Load(i: nat, len: nat)
    | Refuse(i: nat)
    | Exchange(i: nat)
    | SpuriousFailure(i: nat)
    | Send(i: nat)
    | Rollback(i: nat)
    | Reply(len: nat)
    | Receive
    | Written
    | WriteFails
    | WriteTimesOut
    | ChannelCloses
    | Zero
    | Drop

  function Wrap(x: int): nat { x % TWO_64 }

  /** The guard of the reservation, on the sum as the machine computes it. */
  predicate Fits(s: Conn, k: Sink)
    requires k.Loaded?
  {
    Wrap(k.prev + k.len) <= s.maxBytes
  }

  predicate Enabled(s: Conn, step: Step) {
    match step
    case Load(i, len) => i < |s.sinks| && s.sinks[i].Idle? && len < TWO_63
    case Refuse(i) => i < |s.sinks| && s.sinks[i].Loaded? && !Fits(s, s.sinks[i])
    case Exchange(i) => i < |s.sinks| && s.sinks[i].Loaded? && Fits(s, s.sinks[i])
    case SpuriousFailure(i) => i < |s.sinks| && s.sinks[i].Loaded? && Fits(s, s.sinks[i])
    case Send(i) => i < |s.sinks| && s.sinks[i].Reserved?
    case Rollback(i) => i < |s.sinks| && s.sinks[i].Unsent?
    case Reply(len) => |s.queue| < CHANNEL_CAPACITY && !s.writer.Gone?
    case Receive => s.writer.Waiting? && s.queue != []
    case Written => s.writer.Writing?
    case WriteFails => s.writer.Writing?
    case WriteTimesOut => s.writer.Writing?
    case ChannelCloses => s.writer.Waiting? && s.queue == [] && forall i :: 0 <= i < |s.sinks| ==> s.sinks[i].Idle?
    case Zero => s.writer.Leaving?
    case Drop => s.writer.Zeroed?
  }

  function At(s: Conn, i: nat, sink: Sink): Conn
    requires i < |s.sinks|
  {
    s.(sinks := s.sinks[i := sink])
  }

  function Next(s: Conn, step: Step): Conn
    requires Enabled(s, step)
  {
    match step
    case Load(i, len) => At(s, i, Loaded(len, s.inFlight))
    case Refuse(i) => At(s, i, Idle)
    case Exchange(i) =>
      var Loaded(len, prev) := s.sinks[i];
      if s.inFlight == prev then At(s.(inFlight := Wrap(prev + len)), i, Reserved(len))
      else At(s, i, Loaded(len, s.inFlight))
    case SpuriousFailure(i) => At(s, i, Loaded(s.sinks[i].len, s.inFlight))
    case Send(i) =>
      if s.writer.Gone? || |s.queue| >= CHANNEL_CAPACITY then At(s, i, Unsent(s.sinks[i].len))
      else At(s.(queue := s.queue + [s.sinks[i].len]), i, Idle)
    case Rollback(i) => At(s.(inFlight := Wrap(s.inFlight - s.sinks[i].len)), i, Idle)
    case Reply(len) =>
      if s.writer.Zeroed? then s.(queue := s.queue + [len], stranded := s.stranded + len)
      else s.(queue := s.queue + [len], unreserved := s.unreserved + len)
    case Receive => s.(writer := Writing(s.queue[0]), queue := s.queue[1..])
    case Written => s.(writer := Waiting, inFlight := Wrap(s.inFlight - s.writer.len))
    case WriteFails => s.(writer := Leaving(0), inFlight := Wrap(s.inFlight - s.writer.len))
    case WriteTimesOut => s.(writer := Leaving(s.writer.len))
    case ChannelCloses => s.(writer := Leaving(0))
    case Zero => s.(writer := Zeroed, inFlight := 0, stranded := Sum(s.queue, Identity()) + Sum(s.sinks, Owed()))
    case Drop => s.(writer := Gone, queue := [], stranded := s.stranded - Sum(s.queue, Identity()))
  }

  // ---- The ledger ----------------------------------------------------------------

  function Owed(): Sink -> nat {
    (k: Sink) => match k case Reserved(len) => len case Unsent(len) => len case _ => 0
  }

  function Identity(): nat -> nat { (n: nat) => n }

  /** The frame that the writer took from the channel and has not released. */
  function Held(w: Writer): nat {
    match w
    case Writing(len) => len
    case Leaving(unreleased) => unreleased
    case _ => 0
  }

  /** Bytes queued, reserved but not yet sent, and being written. */
  function Pending(s: Conn): nat {
    Sum(s.queue, Identity()) + Sum(s.sinks, Owed()) + Held(s.writer)
  }

  /** The writer has zeroed the counter. */
  predicate Exited(s: Conn) { s.writer.Zeroed? || s.writer.Gone? }

  /** What the counter is short of the pending bytes by. */
  function Drift(s: Conn): int {
    if Exited(s) then s.stranded else s.unreserved
  }

  ghost predicate Ledger(s: Conn) {
    && s.maxBytes < TWO_63
    && (forall i :: 0 <= i < |s.sinks| ==> s.sinks[i].Loaded? ==> s.sinks[i].len < TWO_63)
    && (s.writer.Gone? ==> s.queue == [])
    && s.inFlight == Wrap(Pending(s) - Drift(s))
    && Pending(s) - Drift(s) <= s.maxBytes
  }

  lemma {:induction false} WrapSub(x: int, len: nat)
    ensures Wrap(Wrap(x) - len) == Wrap(x - len)
  {
  }

  /** A reservation that the wrapped guard lets through keeps the true total within the limit. */
  lemma {:induction false} GuardKeepsLimit(total: int, len: nat, maxBytes: nat)
    requires total <= maxBytes < TWO_63 && len < TWO_63
    requires Wrap(Wrap(total) + len) <= maxBytes
    ensures total + len <= maxBytes && Wrap(Wrap(total) + len) == Wrap(total + len)
  {
  }

  /** What the step adds to the pending bytes, less what it adds to the drift. */
  function Gain(s: Conn, step: Step): int
    requires Enabled(s, step)
  {
    match step
    case Exchange(i) => if s.inFlight == s.sinks[i].prev then s.sinks[i].len else 0
    case Rollback(i) => -(s.sinks[i].len as int)
    case Written => -(s.writer.len as int)
    case WriteFails => -(s.writer.len as int)
    case _ => 0
  }

  predicate OfSink(step: Step) {
    step.Load? || step.Refuse? || step.Exchange? || step.SpuriousFailure? || step.Send? || step.Rollback?
  }

  lemma {:induction false} SinkGain(s: Conn, step: Step)
    requires OfSink(step) && Enabled(s, step)
    ensures Pending(Next(s, step)) == Pending(s) + Gain(s, step) && Drift(Next(s, step)) == Drift(s)
  {
    var i, s' := step.i, Next(s, step);
    SumUpdate(s.sinks, Owed(), i, s'.sinks[i]);
    if step.Send? {
      SumAppend(s.queue, [s.sinks[i].len], Identity());
    }
  }

  lemma {:induction false} WriterGain(s: Conn, step: Step)
    requires !OfSink(step) && !step.Zero? && Enabled(s, step)
    ensures Pending(Next(s, step)) - Drift(Next(s, step)) == Pending(s) - Drift(s) + Gain(s, step)
  {
    if step.Reply? {
      SumAppend(s.queue, [step.len], Identity());
    } else if step.Receive? {
      SumAppend([s.queue[0]], s.queue[1..], Identity());
      assert [s.queue[0]] + s.queue[1..] == s.queue;
    }
  }

  lemma {:induction false} CounterFollows(s: Conn, step: Step)
    requires Ledger(s) && Enabled(s, step) && !step.Zero?
    ensures Next(s, step).inFlight == Wrap(Pending(s) - Drift(s) + Gain(s, step))
    ensures Pending(s) - Drift(s) + Gain(s, step) <= s.maxBytes
  {
    hide Sum, Pending, Drift, Wrap;
    var total := Pending(s) - Drift(s);
    if step.Exchange? && s.inFlight == s.sinks[step.i].prev {
      GuardKeepsLimit(total, s.sinks[step.i].len, s.maxBytes);
    } else if step.Rollback? || step.Written? || step.WriteFails? {
      WrapSub(total, -Gain(s, step));
    }
  }

  /** The part of the ledger that is not about sums. */
  lemma {:induction false} ShapeKeeps(s: Conn, step: Step)
    requires Ledger(s) && Enabled(s, step)
    ensures var s' := Next(s, step);
      && s'.maxBytes == s.maxBytes && (s'.writer.Gone? ==> s'.queue == [])
      && forall i :: 0 <= i < |s'.sinks| ==> s'.sinks[i].Loaded? ==> s'.sinks[i].len < TWO_63
  {
    hide Sum, Pending, Drift, Wrap;
  }

  lemma {:induction false} ZeroIsExact(s: Conn)
    requires Enabled(s, Zero)
    ensures var s' := Next(s, Zero); s'.inFlight == 0 && Pending(s') - Drift(s') == 0
  {
    hide Sum;
  }

  lemma {:induction false} StepKeeps(s: Conn, step: Step)
    requires Ledger(s) && Enabled(s, step)
    ensures Ledger(Next(s, step))
  {
    ShapeKeeps(s, step);
    if step.Zero? {
      hide Next, Pending, Drift;
      ZeroIsExact(s);
    } else {
      hide Next, Pending, Drift, Wrap, Gain;
      CounterFollows(s, step);
      if OfSink(step) { SinkGain(s, step); } else { WriterGain(s, step); }
    }
  }

  // ---- Runs ------------------------------------------------------------------------

  ghost predicate Initial(s: Conn) {
    && s.maxBytes < TWO_63 && s.inFlight == 0 && s.queue == [] && s.writer.Waiting?
    && s.unreserved == 0 && s.stranded == 0
    && forall i :: 0 <= i < |s.sinks| ==> s.sinks[i].Idle?
  }

  ghost predicate Execution(run: seq<Conn>, steps: seq<Step>) {
    && |run| == |steps| + 1 && Initial(run[0])
    && forall k :: 0 <= k < |steps| ==> Enabled(run[k], steps[k]) && run[k + 1] == Next(run[k], steps[k])
  }

  lemma {:induction false} Start(s: Conn) returns (run: seq<Conn>, steps: seq<Step>)
    requires Initial(s)
    ensures |run| == |steps| + 1 && Execution(run, steps) && run[|steps|] == s
  {
    run, steps := [s], [];
  }

  lemma {:induction false} Extend(run: seq<Conn>, steps: seq<Step>, step: Step, s': Conn)
    returns (run': seq<Conn>, steps': seq<Step>)
    requires |run| == |steps| + 1 && Execution(run, steps)
    requires Enabled(run[|steps|], step) && s' == Next(run[|steps|], step)
    ensures |run'| == |steps'| + 1 && Execution(run', steps') && run'[|steps'|] == s'
  {
    run', steps' := run + [s'], steps + [step];
  }

  lemma {:induction false} LedgerHolds(run: seq<Conn>, steps: seq<Step>, k: nat)
    requires Execution(run, steps) && k < |run|
    ensures Ledger(run[k])
  {
    if k == 0 {
      SumZero(run[0].sinks, Owed());
    } else {
      LedgerHolds(run, steps, k - 1);
      StepKeeps(run[k - 1], steps[k - 1]);
    }
  }

  // ---- When the counter is exact -------------------------------------------------------

  function ReplyLen(step: Step): nat { if step.Reply? then step.len else 0 }

  /** The payload bytes of the replies among the steps `from` up to `to`. */
  function Replied(steps: seq<Step>, from: nat, to: nat): nat
    requires to <= |steps|
  {
    if to <= from then 0 else Replied(steps, from, to - 1) + ReplyLen(steps[to - 1])
  }

  /** The bytes that a step puts into the channel on behalf of a sink. */
  function SentLen(s: Conn, step: Step): nat
    requires Enabled(s, step)
  {
    if step.Send? && !s.writer.Gone? && |s.queue| < CHANNEL_CAPACITY then s.sinks[step.i].len else 0
  }

  /** The bytes that sinks sent among the steps `from` up to `to`. */
  ghost function Sent(run: seq<Conn>, steps: seq<Step>, from: nat, to: nat): nat
    requires Execution(run, steps) && to <= |steps|
  {
    if to <= from then 0 else Sent(run, steps, from, to - 1) + SentLen(run[to - 1], steps[to - 1])
  }

  lemma {:induction false} RunningStep(s: Conn, step: Step)
    requires Enabled(s, step) && !Exited(Next(s, step))
    ensures !Exited(s) && Next(s, step).unreserved == s.unreserved + ReplyLen(step)
  {
    hide Sum;
  }

  /** While the counter is zeroed and the channel open, the channel only fills. */
  lemma {:induction false} ZeroedStep(s: Conn, step: Step)
    requires Enabled(s, step) && s.writer.Zeroed?
    ensures var s' := Next(s, step);
      if step.Drop? then s'.writer.Gone? && s'.stranded == s.stranded - Sum(s.queue, Identity())
      else
        && s'.writer.Zeroed? && s'.stranded == s.stranded + ReplyLen(step)
        && Sum(s'.queue, Identity()) == Sum(s.queue, Identity()) + SentLen(s, step) + ReplyLen(step)
  {
    if step.Send? {
      SumAppend(s.queue, [s.sinks[step.i].len], Identity());
    } else if step.Reply? {
      SumAppend(s.queue, [step.len], Identity());
    }
  }

  lemma {:induction false} FinalStore(s: Conn)
    requires Enabled(s, Zero)
    ensures var s' := Next(s, Zero);
      && s'.writer.Zeroed? && s'.queue == s.queue
      && s'.stranded == Sum(s.queue, Identity()) + Sum(s.sinks, Owed())
  {
    hide Sum;
  }

  lemma {:induction false} DropNeedsZeroed(s: Conn)
    requires Enabled(s, Drop)
    ensures s.writer.Zeroed?
  {
  }

  lemma {:induction false} GoneStep(s: Conn, step: Step)
    requires Enabled(s, step) && s.writer.Gone?
    ensures Next(s, step).writer.Gone? && Next(s, step).stranded == s.stranded
  {
    hide Sum;
  }

  lemma {:induction false} UnreservedIsReplied(run: seq<Conn>, steps: seq<Step>, k: nat)
    requires Execution(run, steps) && k < |run| && !Exited(run[k])
    ensures run[k].unreserved == Replied(steps, 0, k)
  {
    hide Next, Enabled;
    if k > 0 {
      RunningStep(run[k - 1], steps[k - 1]);
      UnreservedIsReplied(run, steps, k - 1);
    }
  }

  lemma {:induction false} DriftStep(s: Conn, step: Step)
    requires Ledger(s) && Enabled(s, step)
    ensures Next(s, step).maxBytes == s.maxBytes && (step.Zero? ==> !Exited(s))
    ensures Drift(Next(s, step)) <= (if step.Zero? then s.maxBytes + s.unreserved else Drift(s) + ReplyLen(step))
  {
    hide Sum;
  }

  lemma {:induction false} DriftBound(run: seq<Conn>, steps: seq<Step>, k: nat)
    requires Execution(run, steps) && k < |run|
    ensures Drift(run[k]) <= run[k].maxBytes + Replied(steps, 0, k)
  {
    if k > 0 {
      hide Next, Enabled, Ledger, Pending;
      var s, step := run[k - 1], steps[k - 1];
      DriftBound(run, steps, k - 1);
      LedgerHolds(run, steps, k - 1);
      DriftStep(s, step);
      if step.Zero? { UnreservedIsReplied(run, steps, k - 1); }
    }
  }

  lemma {:induction false} WrapExact(pending: nat, drift: int)
    requires -TWO_64 < drift < TWO_64
    requires pending - drift < TWO_64
    ensures Wrap(pending - drift) == pending <==> drift == 0
  {
    var q := (pending - drift) / TWO_64;
    assert pending - drift == q * TWO_64 + Wrap(pending - drift);
  }

  /** Short of 2^63 bytes of replies, the counter is exact exactly when nothing drifts. */
  lemma {:induction false} ExactWithoutDrift(run: seq<Conn>, steps: seq<Step>, k: nat)
    requires Execution(run, steps) && k < |run| && Replied(steps, 0, k) < TWO_63
    ensures run[k].inFlight == Pending(run[k]) <==> Drift(run[k]) == 0
  {
    hide Next, Enabled, Initial, Ledger, Pending, Drift, Wrap, Replied;
    LedgerHolds(run, steps, k);
    DriftBound(run, steps, k);
    ExactState(run[k], Replied(steps, 0, k));
  }

  lemma {:induction false} ExactState(s: Conn, replied: nat)
    requires Ledger(s) && Drift(s) <= s.maxBytes + replied && replied < TWO_63
    ensures s.inFlight == Pending(s) <==> Drift(s) == 0
  {
    hide Pending, Drift, Wrap;
    WrapExact(Pending(s), Drift(s));
  }

  ghost predicate NoPayloadReply(steps: seq<Step>, from: nat, to: nat)
    requires to <= |steps|
  {
    forall j :: from <= j < to && steps[j].Reply? ==> steps[j].len == 0
  }

  lemma {:induction false} NothingReplied(steps: seq<Step>, from: nat, to: nat)
    requires to <= |steps|
    ensures Replied(steps, from, to) == 0 <==> NoPayloadReply(steps, from, to)
  {
    if from < to { NothingReplied(steps, from, to - 1); }
  }

  /**
   Until the writer zeroes the counter, in every interleaving, it equals the bytes
   queued, reserved but unsent, and being written, exactly as long as no reply
   with a payload has been put into the channel past the sinks.
   */
  lemma {:induction false} ConservedUntilExit(run: seq<Conn>, steps: seq<Step>, k: nat)
    requires Execution(run, steps) && k < |run| && !Exited(run[k])
    requires Replied(steps, 0, k) < TWO_63
    ensures run[k].inFlight == Pending(run[k]) <==> NoPayloadReply(steps, 0, k)
  {
    ExactWithoutDrift(run, steps, k);
    UnreservedIsReplied(run, steps, k);
    NothingReplied(steps, 0, k);
  }

  /** From the final store on: what is stranded, and what the channel holds until it is dropped. */
  lemma {:induction false} StrandedWhileZeroed(run: seq<Conn>, steps: seq<Step>, z: nat, k: nat)
    requires Execution(run, steps) && z < k < |run| && steps[z].Zero?
    ensures run[k].writer.Zeroed? || run[k].writer.Gone?
    ensures run[k].writer.Zeroed? ==>
      && run[k].stranded == Sum(run[z].queue, Identity()) + Sum(run[z].sinks, Owed()) + Replied(steps, z + 1, k)
      && Sum(run[k].queue, Identity()) ==
         Sum(run[z].queue, Identity()) + Sent(run, steps, z + 1, k) + Replied(steps, z + 1, k)
  {
    hide Next, Enabled, Sum, Initial;
    var s, step := run[k - 1], steps[k - 1];
    if z + 1 < k {
      StrandedWhileZeroed(run, steps, z, k - 1);
      if s.writer.Zeroed? { ZeroedStep(s, step); } else { GoneStep(s, step); }
    } else {
      FinalStore(s);
    }
  }

  /**
   Between the writer's final store and the drop of the channel, the counter is
   exact exactly when nothing was queued or reserved at the store and no reply
   with a payload has come in since.
   */
  lemma {:induction false} ConservedWhileZeroed(run: seq<Conn>, steps: seq<Step>, z: nat, k: nat)
    requires Execution(run, steps) && z < k < |run| && steps[z].Zero? && run[k].writer.Zeroed?
    requires Replied(steps, 0, k) < TWO_63
    ensures run[k].inFlight == Pending(run[k]) <==>
            && Sum(run[z].queue, Identity()) == 0 && Sum(run[z].sinks, Owed()) == 0
            && NoPayloadReply(steps, z + 1, k)
  {
    ExactWithoutDrift(run, steps, k);
    StrandedWhileZeroed(run, steps, z, k);
    NothingReplied(steps, z + 1, k);
  }

  lemma {:induction false} StrandedAfterDrop(run: seq<Conn>, steps: seq<Step>, z: nat, d: nat, k: nat)
    requires Execution(run, steps) && z < d < k < |run| && steps[z].Zero? && steps[d].Drop?
    ensures run[k].writer.Gone?
    ensures run[k].stranded == Sum(run[z].sinks, Owed()) - Sent(run, steps, z + 1, d)
  {
    hide Next, Enabled, Sum, Initial;
    var s, step := run[k - 1], steps[k - 1];
    if k == d + 1 {
      StrandedWhileZeroed(run, steps, z, d);
      DropNeedsZeroed(s);
      ZeroedStep(s, step);
    } else {
      StrandedAfterDrop(run, steps, z, d, k - 1);
      GoneStep(s, step);
    }
  }

  /**
   Once the channel is dropped, the counter is exact exactly when the bytes that
   sinks had reserved and not sent at the final store equal the bytes that sinks
   still sent between the store and the drop.
   */
  lemma {:induction false} ConservedAfterDrop(run: seq<Conn>, steps: seq<Step>, z: nat, d: nat, k: nat)
    requires Execution(run, steps) && z < d < k < |run| && steps[z].Zero? && steps[d].Drop?
    requires Replied(steps, 0, k) < TWO_63
    ensures run[k].inFlight == Pending(run[k]) <==>
            Sum(run[z].sinks, Owed()) == Sent(run, steps, z + 1, d)
  {
    ExactWithoutDrift(run, steps, k);
    StrandedAfterDrop(run, steps, z, d, k);
  }

  /** The bytes that a step subtracts from the counter. */
  function Subtracted(s: Conn, step: Step): nat
    requires Enabled(s, step)
  {
    match step
    case Rollback(i) => s.sinks[i].len
    case Written => s.writer.len
    case WriteFails => s.writer.len
    case _ => 0
  }

  /** While the counter is exact it is within the limit, and the next subtraction does not underflow. */
  lemma {:induction false} BoundedWithoutUnderflow(run: seq<Conn>, steps: seq<Step>, k: nat)
    requires Execution(run, steps) && k < |steps| && Replied(steps, 0, k) < TWO_63
    requires run[k].inFlight == Pending(run[k])
    ensures run[k].inFlight <= run[k].maxBytes
    ensures Subtracted(run[k], steps[k]) <= run[k].inFlight
  {
    LedgerHolds(run, steps, k);
    ExactWithoutDrift(run, steps, k);
    if steps[k].Rollback? {
      SumUpdate(run[k].sinks, Owed(), steps[k].i, Idle);
    }
  }

  // ---- Which deliveries go through ------------------------------------------------------

  /** A delivery that has loaded the counter loaded it in this step, or was there before. */
  lemma {:induction false} LoadedStep(s: Conn, step: Step, i: nat)
    requires Enabled(s, step) && i < |Next(s, step).sinks| && Next(s, step).sinks[i].Loaded?
    ensures Next(s, step).sinks[i].prev == s.inFlight || (i < |s.sinks| && s.sinks[i] == Next(s, step).sinks[i])
  {
    hide Sum;
  }

  /** The counter that a delivery compares against is one that it has read. */
  lemma {:induction false} LoadedFromCounter(run: seq<Conn>, steps: seq<Step>, k: nat, i: nat) returns (j: nat)
    requires Execution(run, steps) && k < |run| && i < |run[k].sinks| && run[k].sinks[i].Loaded?
    ensures j <= k && run[j].inFlight == run[k].sinks[i].prev
    ensures forall m :: j < m <= k ==> i < |run[m].sinks| && run[m].sinks[i] == run[k].sinks[i]
  {
    hide Next, Enabled;
    if k > 0 {
      LoadedStep(run[k - 1], steps[k - 1], i);
      if run[k].sinks[i].prev == run[k - 1].inFlight {
        j := k - 1;
      } else {
        j := LoadedFromCounter(run, steps, k - 1, i);
      }
    } else {
      assert false;
    }
  }

  lemma {:induction false} RefuseNeedsExcess(s: Conn, i: nat)
    requires Ledger(s) && Enabled(s, Refuse(i)) && s.sinks[i].prev <= s.maxBytes
    ensures s.sinks[i].prev + s.sinks[i].len > s.maxBytes
  {
    hide Pending;
  }

  lemma {:induction false} StillRunning(run: seq<Conn>, steps: seq<Step>, j: nat, k: nat)
    requires Execution(run, steps) && j <= k < |run| && !Exited(run[k])
    ensures !Exited(run[j]) && run[j].maxBytes == run[k].maxBytes
  {
    hide Next, Enabled;
    if j < k {
      RunningStep(run[k - 1], steps[k - 1]);
      LimitStays(run[k - 1], steps[k - 1]);
      StillRunning(run, steps, j, k - 1);
    }
  }

  lemma {:induction false} LimitStays(s: Conn, step: Step)
    requires Enabled(s, step)
    ensures Next(s, step).maxBytes == s.maxBytes
  {
    hide Sum;
  }

  /**
   Until the writer exits, and while every payload comes through the sinks, a
   delivery is refused only if its bytes and the bytes pending when it last read
   the counter would have exceeded the limit.
   */
  lemma {:induction false} RefusedOnlyWhenFull(run: seq<Conn>, steps: seq<Step>, k: nat) returns (j: nat)
    requires Execution(run, steps) && k < |steps| && steps[k].Refuse? && !Exited(run[k])
    requires NoPayloadReply(steps, 0, k)
    ensures j <= k && Enabled(run[k], steps[k])
    ensures var i := steps[k].i;
      forall m :: j < m <= k ==> i < |run[m].sinks| && run[m].sinks[i] == run[k].sinks[i]
    ensures run[k].sinks[steps[k].i].prev == Pending(run[j])
    ensures Pending(run[j]) + run[k].sinks[steps[k].i].len > run[k].maxBytes
  {
    var i := steps[k].i;
    assert Enabled(run[k], Refuse(i));
    j := LoadedFromCounter(run, steps, k, i);
    hide Next, Pending, Sum, Wrap;
    StillRunning(run, steps, j, k);
    NothingReplied(steps, 0, j);
    ConservedUntilExit(run, steps, j);
    ExactWithoutDrift(run, steps, j);
    LedgerHolds(run, steps, k);
    LedgerHolds(run, steps, j);
    RefuseNeedsExcess(run[k], i);
  }

  /**
   A delivery that nobody disturbs, from the load to its answer. It is refused
   exactly when its bytes do not fit, and then nothing has changed. Otherwise an
   open channel with room gets exactly its bytes, last in the queue, and the
   counter counts them; on a full or closed channel everything is rolled back.
   */
  lemma {:induction false} UndisturbedDelivery(s: Conn, i: nat, len: nat)
    requires i < |s.sinks| && s.sinks[i].Idle? && len < TWO_63 && s.inFlight + len < TWO_64
    ensures var s1 := Next(s, Load(i, len));
      if s.inFlight + len > s.maxBytes then
        Enabled(s1, Refuse(i)) && !Enabled(s1, Exchange(i)) && Next(s1, Refuse(i)) == s
      else
        && Enabled(s1, Exchange(i)) && !Enabled(s1, Refuse(i))
        && var s2 := Next(s1, Exchange(i));
        && Enabled(s2, Send(i))
        && var s3 := Next(s2, Send(i));
        if !s.writer.Gone? && |s.queue| < 1024 then
          s3 == s.(inFlight := s.inFlight + len, queue := s.queue + [len])
        else
          Enabled(s3, Rollback(i)) && Next(s3, Rollback(i)) == s
  {
    hide Sum;
    assert s.sinks[i := Idle] == s.sinks;
    assert s.sinks[i := Loaded(len, s.inFlight)][i := Idle] == s.sinks;
    assert s.sinks[i := Loaded(len, s.inFlight)][i := Reserved(len)][i := Idle] == s.sinks;
    assert s.sinks[i := Loaded(len, s.inFlight)][i := Reserved(len)][i := Unsent(len)][i := Idle] == s.sinks;
  }

  /** A delivery that was disturbed, or failed for no reason, compares again with the counter as it now is. */
  lemma {:induction false} DisturbedDeliveryRetries(s: Conn, i: nat)
    requires Enabled(s, Exchange(i))
    ensures Enabled(s, SpuriousFailure(i))
    ensures var again := s.(sinks := s.sinks[i := Loaded(s.sinks[i].len, s.inFlight)]);
      && Next(s, SpuriousFailure(i)) == again
      && (s.inFlight != s.sinks[i].prev ==> Next(s, Exchange(i)) == again)
  {
  }

  /** The writer takes the oldest frame, writes it and gives its bytes back. */
  lemma {:induction false} UndisturbedWrite(s: Conn)
    requires s.writer.Waiting? && s.queue != [] && s.queue[0] <= s.inFlight < TWO_64
    ensures Enabled(s, Receive) && var s1 := Next(s, Receive);
      && Enabled(s1, Written) && Enabled(s1, WriteFails) && Enabled(s1, WriteTimesOut)
      && Next(s1, Written) == s.(queue := s.queue[1..], inFlight := s.inFlight - s.queue[0])
      && Next(s1, WriteFails) == Next(s1, Written).(writer := Leaving(0))
      && Next(s1, WriteTimesOut).writer.Leaving? && Next(s1, WriteTimesOut).inFlight == s.inFlight
  {
    hide Sum;
  }

  // ---- Order ------------------------------------------------------------------------------

  /** What a step puts into the channel. */
  function PutIn(s: Conn, step: Step): seq<nat>
    requires Enabled(s, step)
  {
    if step.Reply? then [step.len]
    else if step.Send? && !s.writer.Gone? && |s.queue| < CHANNEL_CAPACITY then [s.sinks[step.i].len]
    else []
  }

  /** The payload sizes that the first `k` steps put into the channel, in order. */
  ghost function Entered(run: seq<Conn>, steps: seq<Step>, k: nat): seq<nat>
    requires Execution(run, steps) && k <= |steps|
  {
    if k == 0 then [] else Entered(run, steps, k - 1) + PutIn(run[k - 1], steps[k - 1])
  }

  /** The payload sizes of the frames that the writer took, in order. */
  ghost function Taken(run: seq<Conn>, steps: seq<Step>, k: nat): seq<nat>
    requires Execution(run, steps) && k <= |steps|
  {
    if k == 0 then []
    else
      Taken(run, steps, k - 1) +
      if run[k].writer.Writing? && run[k - 1].writer.Waiting? then [run[k].writer.len] else []
  }

  lemma {:induction false} FillStep(s: Conn, step: Step)
    requires Enabled(s, step) && !step.Receive? && !step.Drop?
    ensures Next(s, step).queue == s.queue + PutIn(s, step)
    ensures !(Next(s, step).writer.Writing? && s.writer.Waiting?)
  {
    hide Sum, Wrap;
    if !step.Send? && !step.Reply? {
      assert s.queue + [] == s.queue;
    }
  }

  lemma {:induction false} TakeStep(s: Conn)
    requires Enabled(s, Receive)
    ensures var s' := Next(s, Receive);
      && s.writer.Waiting? && s'.writer.Writing? && PutIn(s, Receive) == []
      && s.queue == [s'.writer.len] + s'.queue
  {
    hide Sum, Wrap;
    assert s.queue == [s.queue[0]] + s.queue[1..];
  }

  lemma {:induction false} StillOpen(s: Conn, step: Step)
    requires Enabled(s, step) && !Next(s, step).writer.Gone?
    ensures !s.writer.Gone? && !step.Drop?
  {
    hide Sum, Wrap;
  }

  lemma {:induction false} ChannelStep(s: Conn, step: Step)
    requires Enabled(s, step) && !Next(s, step).writer.Gone?
    ensures !s.writer.Gone?
    ensures var s' := Next(s, step);
      s.queue + PutIn(s, step) ==
      (if s'.writer.Writing? && s.writer.Waiting? then [s'.writer.len] else []) + s'.queue
  {
    hide Next, Enabled, PutIn;
    StillOpen(s, step);
    if step.Receive? {
      TakeStep(s);
      assert s.queue + [] == s.queue;
    } else {
      FillStep(s, step);
      assert [] + Next(s, step).queue == Next(s, step).queue;
    }
  }

  lemma {:induction false} Reassociate(old': seq<nat>, queue: seq<nat>, put: seq<nat>, taken: seq<nat>, left: seq<nat>)
    requires queue + put == taken + left
    ensures old' + taken + left == old' + queue + put
  {
    assert old' + taken + left == old' + (taken + left);
    assert old' + queue + put == old' + (queue + put);
  }

  /** Until it is dropped the channel loses, repeats and reorders nothing. */
  lemma {:induction false} WriterTakesInOrder(run: seq<Conn>, steps: seq<Step>, k: nat)
    requires Execution(run, steps) && k < |run| && !run[k].writer.Gone?
    ensures Taken(run, steps, k) + run[k].queue == Entered(run, steps, k)
  {
    hide Next, Enabled, PutIn;
    if k > 0 {
      ChannelStep(run[k - 1], steps[k - 1]);
      WriterTakesInOrder(run, steps, k - 1);
      var taken := if run[k].writer.Writing? && run[k - 1].writer.Waiting? then [run[k].writer.len] else [];
      Reassociate(Taken(run, steps, k - 1), run[k - 1].queue, PutIn(run[k - 1], steps[k - 1]), taken, run[k].queue);
    }
  }

  /** A ten-byte reply on an idle connection drives the counter below zero. */
  lemma {:induction false} UnreservedReplyUnderflows(maxBytes: nat)
    requires maxBytes < TWO_63
    ensures exists run: seq<Conn>, steps: seq<Step> :: Execution(run, steps) && !run[|steps|].writer.Gone?
              && run[|steps|].inFlight == TWO_64 - 10 && Pending(run[|steps|]) == 0
  {
    hide Execution;
    var s0 := Conn(maxBytes, 0, [], Waiting, [], 0, 0);
    var s1 := s0.(queue := [10], unreserved := 10);
    var s2 := s1.(queue := [], writer := Writing(10));
    var run, steps := Start(s0);
    run, steps := Extend(run, steps, Reply(10), s1);
    run, steps := Extend(run, steps, Receive, s2);
    run, steps := Extend(run, steps, Written, s2.(writer := Waiting, inFlight := TWO_64 - 10));
  }

  /** A delivery can hold a reservation when the writer leaves its loop. */
  lemma {:induction false} LeavesWithReservation(maxBytes: nat) returns (run: seq<Conn>, steps: seq<Step>)
    requires 0 < maxBytes < TWO_63
    ensures |run| == |steps| + 1 && Execution(run, steps)
    ensures run[|steps|] == Conn(maxBytes, 1, [], Leaving(0), [Reserved(1)], 0, 0)
  {
    hide Execution, Sum;
    var s0 := Conn(maxBytes, 0, [], Waiting, [Idle], 0, 0);
    var s2 := s0.(writer := Writing(0));
    run, steps := Start(s0);
    run, steps := Extend(run, steps, Reply(0), s0.(queue := [0]));
    run, steps := Extend(run, steps, Receive, s2);
    run, steps := Extend(run, steps, Load(0, 1), s2.(sinks := [Loaded(1, 0)]));
    run, steps := Extend(run, steps, Exchange(0), s2.(inFlight := 1, sinks := [Reserved(1)]));
    run, steps := Extend(run, steps, WriteFails, s2.(inFlight := 1, sinks := [Reserved(1)], writer := Leaving(0)));
  }

  /**
   The writer's final store does not wait for the sinks: a delivery that had
   reserved before it rolls back after it, and the counter underflows.
   */
  lemma {:induction false} RollbackAfterExitUnderflows(maxBytes: nat)
    requires 0 < maxBytes < TWO_63
    ensures exists run: seq<Conn>, steps: seq<Step> :: Execution(run, steps) && run[|steps|].unreserved == 0
              && run[|steps|].inFlight == TWO_64 - 1
  {
    var run, steps := LeavesWithReservation(maxBytes);
    var s6 := Conn(maxBytes, 0, [], Gone, [Reserved(1)], 0, 1);
    assert Sum([Reserved(1)], Owed()) == 1;
    run, steps := Extend(run, steps, Zero, s6.(writer := Zeroed));
    run, steps := Extend(run, steps, Drop, s6);
    run, steps := Extend(run, steps, Send(0), s6.(sinks := [Unsent(1)]));
    run, steps := Extend(run, steps, Rollback(0), s6.(sinks := [Idle], inFlight := TWO_64 - 1));
  }
}
