/**
 The backpressure controller under interleaving: any number of tasks enqueue
 and release bytes with compare-and-swap loops, and update its counters.
 */
module Backpressure {
  import opened Tally

  datatype Strategy = Pause | DropVolatile | CoalesceState | Downgrade | Disconnect | SnapshotLater {
    predicate Drops() { DropVolatile? || CoalesceState? || Disconnect? }
  }

  /** Where one call of `try_enqueue` or `release` stands. */
  datatype Task =
    | Resting
    | Enqueuing(bytes: nat, prev: nat)
    | Refused
    | Deciding
    | Dropping(strategy: Strategy)
    | Counting(strategy: Strategy)
    | Releasing(bytes: nat, prev: nat)
    | Resuming

  datatype Counters = Counters(
    applied: nat,
    dropped: nat,
    slowConsumer: nat,
    flowPause: nat,
    flowResume: nat,
    volatileDrop: nat,
    stateCoalesce: nat
  )

  /**
   History: bytes accepted by enqueues, bytes asked for by releases, how far
   releases asked for more than was there, and how often the queue rose to the
   high-water mark.
   */
  datatype History = History(accepted: nat, asked: nat, overdrawn: nat, rises: nat)

  datatype Controller = Controller(
    maxBytes: nat,
    current: nat,
    strategy: Strategy,
    counters: Counters,
    tasks: seq<Task>,
    history: History
  )

  function HighWater(maxBytes: nat): nat { maxBytes - maxBytes / 10 }

  predicate IsOverloaded(s: Controller) {
    s.maxBytes != 0 && s.current >= s.maxBytes - s.maxBytes / 10
  }

  datatype Step =
    | SetStrategy(strategy: Strategy)
    | LoadToEnqueue(i: nat, bytes: nat)
    | ExchangeToEnqueue(i: nat)
    | RetryEnqueue(i: nat)
    | Refuse(i: nat)
    | RecordApplied(i: nat)
    | ReadStrategy(i: nat)
    | RecordDropped(i: nat)
    | RecordOutcome(i: nat)
    | LoadToRelease(i: nat, bytes: nat)
    | ExchangeToRelease(i: nat)
    | RetryRelease(i: nat)
    | RecordResume(i: nat)

  predicate Enabled(s: Controller, step: Step) {
    step.SetStrategy? ||
    (step.i < |s.tasks| &&
     var t := s.tasks[step.i];
     match step
     case LoadToEnqueue(_, _) => t.Resting?
     case ExchangeToEnqueue(_) => t.Enqueuing? && t.prev + t.bytes <= s.maxBytes
     case RetryEnqueue(_) => t.Enqueuing? && t.prev + t.bytes <= s.maxBytes
     case Refuse(_) => t.Enqueuing? && t.prev + t.bytes > s.maxBytes
     case RecordApplied(_) => t.Refused?
     case ReadStrategy(_) => t.Deciding?
     case RecordDropped(_) => t.Dropping?
     case RecordOutcome(_) => t.Counting?
     case LoadToRelease(_, _) => t.Resting?
     case ExchangeToRelease(_) => t.Releasing?
     case RetryRelease(_) => t.Releasing?
     case RecordResume(_) => t.Resuming?
     case SetStrategy(_) => true)
  }

  function At(s: Controller, i: nat, t: Task): Controller
    requires i < |s.tasks|
  {
    s.(tasks := s.tasks[i := t])
  }

  function Enqueue(s: Controller, i: nat): Controller
    requires i < |s.tasks| && s.tasks[i].Enqueuing?
  {
    var Enqueuing(bytes, prev) := s.tasks[i];
    var next := prev + bytes;
    var rise := if prev < HighWater(s.maxBytes) <= next then 1 else 0;
    var h := s.history;
    if s.current == prev
    then At(s.(current := next, history := h.(accepted := h.accepted + bytes, rises := h.rises + rise)), i, Resting)
    else At(s, i, Enqueuing(bytes, s.current))
  }

  function Release(s: Controller, i: nat): Controller
    requires i < |s.tasks| && s.tasks[i].Releasing?
  {
    var Releasing(bytes, prev) := s.tasks[i];
    var next := if bytes <= prev then prev - bytes else 0;
    var short := if bytes <= prev then 0 else bytes - prev;
    if s.current == prev
    then At(s.(current := next,
               history := s.history.(asked := s.history.asked + bytes, overdrawn := s.history.overdrawn + short)),
            i, if prev >= HighWater(s.maxBytes) > next then Resuming else Resting)
    else At(s, i, Releasing(bytes, s.current))
  }

  /** The counter that a refusal finally bumps depends on the strategy that it read. */
  function Outcome(s: Controller, strategy: Strategy): Controller {
    var c := s.counters;
    match strategy
    case Pause => s.(counters := c.(flowPause := c.flowPause + 1))
    case DropVolatile => s.(counters := c.(volatileDrop := c.volatileDrop + 1))
    case CoalesceState => s.(counters := c.(stateCoalesce := c.stateCoalesce + 1))
    case Disconnect => s.(counters := c.(slowConsumer := c.slowConsumer + 1))
    case Downgrade => s
    case SnapshotLater => s
  }

  function Next(s: Controller, step: Step): Controller
    requires Enabled(s, step)
  {
    match step
    case SetStrategy(strategy) => s.(strategy := strategy)
    case LoadToEnqueue(i, bytes) => At(s, i, Enqueuing(bytes, s.current))
    case ExchangeToEnqueue(i) => Enqueue(s, i)
    case RetryEnqueue(i) => At(s, i, Enqueuing(s.tasks[i].bytes, s.current))
    case Refuse(i) => At(s, i, Refused)
    case RecordApplied(i) => At(s.(counters := s.counters.(applied := s.counters.applied + 1)), i, Deciding)
    case ReadStrategy(i) => At(s, i, if s.strategy.Drops() then Dropping(s.strategy) else Counting(s.strategy))
    case RecordDropped(i) =>
      At(s.(counters := s.counters.(dropped := s.counters.dropped + 1)), i, Counting(s.tasks[i].strategy))
    case RecordOutcome(i) => At(Outcome(s, s.tasks[i].strategy), i, Resting)
    case LoadToRelease(i, bytes) => At(s, i, Releasing(bytes, s.current))
    case ExchangeToRelease(i) => Release(s, i)
    case RetryRelease(i) => At(s, i, Releasing(s.tasks[i].bytes, s.current))
    case RecordResume(i) => At(s.(counters := s.counters.(flowResume := s.counters.flowResume + 1)), i, Resting)
  }

  // ---- Bytes and the high-water mark -------------------------------------------------

  function OwesResume(): Task -> nat { (t: Task) => if t.Resuming? then 1 else 0 }

  function Above(s: Controller): nat {
    if s.current >= HighWater(s.maxBytes) then 1 else 0
  }

  /** Bytes balance, and rises are balanced by resumes, recorded or about to be. */
  ghost predicate Balanced(s: Controller) {
    && s.current <= s.maxBytes
    && s.current == s.history.accepted - s.history.asked + s.history.overdrawn
    && (s.maxBytes > 0 ==> s.history.rises == s.counters.flowResume + Sum(s.tasks, OwesResume()) + Above(s))
  }

  lemma {:induction false} MoveKeepsBalance(s: Controller, step: Step)
    requires Enabled(s, step) && Balanced(s) && !step.ExchangeToEnqueue? && !step.ExchangeToRelease?
    ensures Balanced(Next(s, step))
  {
    if !step.SetStrategy? {
      SumUpdate(s.tasks, OwesResume(), step.i, Next(s, step).tasks[step.i]);
    }
  }

  lemma {:induction false} EnqueueKeepsBalance(s: Controller, i: nat)
    requires Enabled(s, ExchangeToEnqueue(i)) && Balanced(s)
    ensures Balanced(Enqueue(s, i))
  {
    SumUpdate(s.tasks, OwesResume(), i, Enqueue(s, i).tasks[i]);
  }

  lemma {:induction false} ReleaseKeepsBalance(s: Controller, i: nat)
    requires Enabled(s, ExchangeToRelease(i)) && Balanced(s)
    ensures Balanced(Release(s, i))
  {
    SumUpdate(s.tasks, OwesResume(), i, Release(s, i).tasks[i]);
  }

  // ---- Refusals ------------------------------------------------------------------------

  function IsRefused(): Task -> nat { (t: Task) => if t.Refused? then 1 else 0 }
  function IsDeciding(): Task -> nat { (t: Task) => if t.Deciding? then 1 else 0 }
  function IsDropping(): Task -> nat { (t: Task) => if t.Dropping? then 1 else 0 }

  /** A refusal that read strategy `st` and has not counted its outcome. */
  function Carries(st: Strategy): Task -> nat {
    (t: Task) => if (t.Dropping? || t.Counting?) && t.strategy == st then 1 else 0
  }

  function One(b: bool): nat { if b then 1 else 0 }

  /** The counter of a strategy's outcomes; two of the strategies have none. */
  function CountOf(c: Counters, st: Strategy): nat {
    match st
    case Pause => c.flowPause
    case DropVolatile => c.volatileDrop
    case CoalesceState => c.stateCoalesce
    case Disconnect => c.slowConsumer
    case Downgrade => 0
    case SnapshotLater => 0
  }

  predicate Counted(st: Strategy) { st.Pause? || st.Drops() }

  /** The tasks in a stage, after one step. */
  lemma {:induction false} StageMoves(s: Controller, step: Step, f: Task -> nat)
    requires Enabled(s, step)
    ensures var s' := Next(s, step);
      Sum(s'.tasks, f) == if step.SetStrategy? then Sum(s.tasks, f)
                          else Sum(s.tasks, f) - f(s.tasks[step.i]) + f(s'.tasks[step.i])
  {
    if !step.SetStrategy? {
      SumUpdate(s.tasks, f, step.i, Next(s, step).tasks[step.i]);
    }
  }

  /** Where a refusal leaves one stage it enters the next, or a counter. */
  lemma {:induction false} RefusalStep(s: Controller, step: Step)
    requires Enabled(s, step)
    ensures var s' := Next(s, step); var c, c' := s.counters, s'.counters;
      && c'.applied + Sum(s'.tasks, IsRefused()) == c.applied + Sum(s.tasks, IsRefused()) + One(step.Refuse?)
      && c'.applied + Sum(s.tasks, IsDeciding()) ==
         c.applied + Sum(s'.tasks, IsDeciding()) + One(step.ReadStrategy?)
      && c'.dropped + Sum(s'.tasks, IsDropping()) ==
         c.dropped + Sum(s.tasks, IsDropping()) + One(step.ReadStrategy? && s.strategy.Drops())
  {
    StageMoves(s, step, IsRefused());
    StageMoves(s, step, IsDeciding());
    StageMoves(s, step, IsDropping());
  }

  lemma {:induction false} OutcomeStep(s: Controller, step: Step, st: Strategy)
    requires Enabled(s, step) && Counted(st)
    ensures var s' := Next(s, step);
      CountOf(s'.counters, st) + Sum(s'.tasks, Carries(st)) ==
      CountOf(s.counters, st) + Sum(s.tasks, Carries(st)) + One(step.ReadStrategy? && s.strategy == st)
  {
    StageMoves(s, step, Carries(st));
  }

  // ---- Runs ------------------------------------------------------------------------------

  ghost predicate Initial(s: Controller) {
    && s.current == 0
    && s.counters == Counters(0, 0, 0, 0, 0, 0, 0) && s.history == History(0, 0, 0, 0)
    && Quiet(s)
  }

  ghost predicate Quiet(s: Controller) {
    forall i :: 0 <= i < |s.tasks| ==> s.tasks[i].Resting?
  }

  ghost predicate Execution(run: seq<Controller>, steps: seq<Step>) {
    && |run| == |steps| + 1 && Initial(run[0])
    && forall k :: 0 <= k < |steps| ==> Enabled(run[k], steps[k]) && run[k + 1] == Next(run[k], steps[k])
  }

  lemma {:induction false} Invariant(run: seq<Controller>, steps: seq<Step>, k: nat)
    requires Execution(run, steps) && k < |run|
    ensures Balanced(run[k])
  {
    if k == 0 {
      SumZero(run[0].tasks, OwesResume());
    } else {
      var s, step := run[k - 1], steps[k - 1];
      Invariant(run, steps, k - 1);
      if step.ExchangeToEnqueue? {
        EnqueueKeepsBalance(s, step.i);
      } else if step.ExchangeToRelease? {
        ReleaseKeepsBalance(s, step.i);
      } else {
        MoveKeepsBalance(s, step);
      }
    }
  }

  /** At no time have releases asked for more bytes than had been accepted. */
  ghost predicate Matched(run: seq<Controller>, k: nat)
    requires k < |run|
  {
    forall j :: 0 <= j <= k ==> run[j].history.asked <= run[j].history.accepted
  }

  lemma {:induction false} OverdraftStep(s: Controller, step: Step)
    requires Balanced(s) && Enabled(s, step) && s.history.overdrawn == 0
    ensures var h := Next(s, step).history; h.overdrawn == 0 <==> h.asked <= h.accepted
  {
  }

  lemma {:induction false} OverdraftGrows(s: Controller, step: Step)
    requires Enabled(s, step)
    ensures Next(s, step).history.overdrawn >= s.history.overdrawn
  {
  }

  lemma {:induction false} MatchedExactlyWhen(run: seq<Controller>, steps: seq<Step>, k: nat)
    requires Execution(run, steps) && k < |run|
    ensures run[k].history.overdrawn == 0 <==> Matched(run, k)
  {
    hide Next, Enabled;
    if k > 0 {
      MatchedExactlyWhen(run, steps, k - 1);
      OverdraftGrows(run[k - 1], steps[k - 1]);
      if run[k - 1].history.overdrawn == 0 {
        Invariant(run, steps, k - 1);
        OverdraftStep(run[k - 1], steps[k - 1]);
      }
    }
  }

  /**
   Under every interleaving the queue stays within its capacity, and holds what
   was accepted minus what was released exactly when releases have been matched
   by accepted bytes all along.
   */
  lemma {:induction false} BytesAreConserved(run: seq<Controller>, steps: seq<Step>, k: nat)
    requires Execution(run, steps) && k < |run|
    ensures run[k].current <= run[k].maxBytes
    ensures run[k].current == run[k].history.accepted - run[k].history.asked <==> Matched(run, k)
  {
    Invariant(run, steps, k);
    MatchedExactlyWhen(run, steps, k);
  }

  lemma {:induction false} Start(s: Controller) returns (run: seq<Controller>, steps: seq<Step>)
    requires Initial(s)
    ensures |run| == |steps| + 1 && Execution(run, steps) && run[|steps|] == s
  {
    run, steps := [s], [];
  }

  lemma {:induction false} Extend(run: seq<Controller>, steps: seq<Step>, step: Step, s': Controller)
    returns (run': seq<Controller>, steps': seq<Step>)
    requires |run| == |steps| + 1 && Execution(run, steps)
    requires Enabled(run[|steps|], step) && s' == Next(run[|steps|], step)
    ensures |run'| == |steps'| + 1 && Execution(run', steps') && run'[|steps'|] == s'
  {
    run', steps' := run + [s'], steps + [step];
  }

  /** Releasing five bytes before five are enqueued leaves the queue ahead of its books for good. */
  lemma {:induction false} OverReleaseDrifts()
    ensures exists run: seq<Controller>, steps: seq<Step> :: Execution(run, steps) && Quiet(run[|steps|])
              && run[|steps|].current == 5 && run[|steps|].history.accepted == run[|steps|].history.asked == 5
  {
    hide Sum;
    var s0 := Controller(100, 0, Pause, Counters(0, 0, 0, 0, 0, 0, 0), [Resting], History(0, 0, 0, 0));
    var s2 := s0.(history := History(0, 5, 5, 0));
    var run, steps := Start(s0);
    run, steps := Extend(run, steps, LoadToRelease(0, 5), s0.(tasks := [Releasing(5, 0)]));
    run, steps := Extend(run, steps, ExchangeToRelease(0), s2);
    run, steps := Extend(run, steps, LoadToEnqueue(0, 5), s2.(tasks := [Enqueuing(5, 0)]));
    run, steps := Extend(run, steps, ExchangeToEnqueue(0), s2.(current := 5, history := History(5, 5, 5, 0)));
  }

  /**
   At quiescence, rises to the high-water mark minus resume events is one when
   the controller is overloaded, and zero otherwise.
   */
  lemma {:induction false} ResumesMatchRises(run: seq<Controller>, steps: seq<Step>, k: nat)
    requires Execution(run, steps) && k < |run| && Quiet(run[k]) && run[k].maxBytes > 0
    ensures run[k].history.rises - run[k].counters.flowResume == if IsOverloaded(run[k]) then 1 else 0
  {
    Invariant(run, steps, k);
    SumZero(run[k].tasks, OwesResume());
  }

  // ---- Which bytes go in and out -------------------------------------------------------------

  lemma {:induction false} LoadedStep(s: Controller, step: Step, i: nat)
    requires Enabled(s, step) && i < |Next(s, step).tasks| && Next(s, step).tasks[i].Enqueuing?
    ensures Next(s, step).tasks[i].prev == s.current || (i < |s.tasks| && s.tasks[i] == Next(s, step).tasks[i])
  {
  }

  lemma {:induction false} LoadedFromCounter(run: seq<Controller>, steps: seq<Step>, k: nat, i: nat) returns (j: nat)
    requires Execution(run, steps) && k < |run| && i < |run[k].tasks| && run[k].tasks[i].Enqueuing?
    ensures j <= k && run[j].current == run[k].tasks[i].prev
    ensures forall m :: j < m <= k ==> i < |run[m].tasks| && run[m].tasks[i] == run[k].tasks[i]
  {
    hide Next, Enabled;
    if k > 0 {
      LoadedStep(run[k - 1], steps[k - 1], i);
      if run[k].tasks[i].prev == run[k - 1].current {
        j := k - 1;
      } else {
        j := LoadedFromCounter(run, steps, k - 1, i);
      }
    } else {
      assert false;
    }
  }

  /** An enqueue is refused only if its bytes did not fit on top of the queue that it last saw. */
  lemma {:induction false} RefusedOnlyWhenFull(run: seq<Controller>, steps: seq<Step>, k: nat) returns (j: nat)
    requires Execution(run, steps) && k < |steps| && steps[k].Refuse?
    ensures j <= k && Enabled(run[k], steps[k])
    ensures var i := steps[k].i;
      && (forall m :: j < m <= k ==> i < |run[m].tasks| && run[m].tasks[i] == run[k].tasks[i])
      && run[j].current + run[k].tasks[i].bytes > run[k].maxBytes
  {
    j := LoadedFromCounter(run, steps, k, steps[k].i);
  }

  /** An enqueue that nobody disturbs is accepted exactly when it fits, and then the queue holds it. */
  lemma {:induction false} UndisturbedEnqueue(s: Controller, i: nat, bytes: nat)
    requires i < |s.tasks| && s.tasks[i].Resting?
    ensures var s1 := Next(s, LoadToEnqueue(i, bytes));
      if s.current + bytes <= s.maxBytes then
        && Enabled(s1, ExchangeToEnqueue(i)) && !Enabled(s1, Refuse(i))
        && var s2 := Next(s1, ExchangeToEnqueue(i));
        && s2.current == s.current + bytes && s2.tasks == s.tasks && s2.counters == s.counters
      else
        && Enabled(s1, Refuse(i)) && !Enabled(s1, ExchangeToEnqueue(i))
        && Next(s1, Refuse(i)) == s.(tasks := s.tasks[i := Refused])
  {
    assert s.tasks[i := Resting] == s.tasks;
    assert s.tasks[i := Enqueuing(bytes, s.current)][i := Resting] == s.tasks;
    assert s.tasks[i := Enqueuing(bytes, s.current)][i := Refused] == s.tasks[i := Refused];
  }

  /** A call that was disturbed, or failed for no reason, tries again on the queue as it now is. */
  lemma {:induction false} DisturbedCallRetries(s: Controller, i: nat)
    requires i < |s.tasks|
    ensures Enabled(s, ExchangeToEnqueue(i)) ==>
      var again := s.(tasks := s.tasks[i := Enqueuing(s.tasks[i].bytes, s.current)]);
      && Enabled(s, RetryEnqueue(i)) && Next(s, RetryEnqueue(i)) == again
      && (s.current != s.tasks[i].prev ==> Next(s, ExchangeToEnqueue(i)) == again)
    ensures Enabled(s, ExchangeToRelease(i)) ==>
      var again := s.(tasks := s.tasks[i := Releasing(s.tasks[i].bytes, s.current)]);
      && Enabled(s, RetryRelease(i)) && Next(s, RetryRelease(i)) == again
      && (s.current != s.tasks[i].prev ==> Next(s, ExchangeToRelease(i)) == again)
  {
  }

  /** A release that nobody disturbs takes its bytes off, down to zero, and tells of a fall below 90 percent. */
  lemma {:induction false} UndisturbedRelease(s: Controller, i: nat, bytes: nat)
    requires i < |s.tasks| && s.tasks[i].Resting?
    ensures var s1 := Next(s, LoadToRelease(i, bytes));
      && Enabled(s1, ExchangeToRelease(i))
      && var s2 := Next(s1, ExchangeToRelease(i)); var mark := s.maxBytes - s.maxBytes / 10;
      && s2.current == (if s.current >= bytes then s.current - bytes else 0) && s2.counters == s.counters
      && (s2.tasks[i].Resuming? <==> s.current >= mark > s2.current)
      && (s2.tasks[i].Resuming? ==>
            Enabled(s2, RecordResume(i)) && Next(s2, RecordResume(i)).tasks == s.tasks
            && Next(s2, RecordResume(i)).counters == s.counters.(flowResume := s.counters.flowResume + 1))
      && (!s2.tasks[i].Resuming? ==> s2.tasks == s.tasks)
  {
    assert s.tasks[i := Resting] == s.tasks;
    assert s.tasks[i := Releasing(bytes, s.current)][i := Resting] == s.tasks;
    assert s.tasks[i := Releasing(bytes, s.current)][i := Resuming][i := Resting] == s.tasks;
  }

  /** The refusals among the first `k` steps. */
  function Refusals(steps: seq<Step>, k: nat): nat
    requires k <= |steps|
  {
    if k == 0 then 0 else Refusals(steps, k - 1) + One(steps[k - 1].Refuse?)
  }

  /** How often, among the first `k` steps, a refusal found strategy `st` in force. */
  function Met(run: seq<Controller>, steps: seq<Step>, k: nat, st: Strategy): nat
    requires k <= |steps| < |run|
  {
    if k == 0 then 0
    else Met(run, steps, k - 1, st) + One(steps[k - 1].ReadStrategy? && run[k - 1].strategy == st)
  }

  function MetDropping(run: seq<Controller>, steps: seq<Step>, k: nat): nat
    requires k <= |steps| < |run|
  {
    Met(run, steps, k, DropVolatile) + Met(run, steps, k, CoalesceState) + Met(run, steps, k, Disconnect)
  }

  function MetAny(run: seq<Controller>, steps: seq<Step>, k: nat): nat
    requires k <= |steps| < |run|
  {
    MetDropping(run, steps, k)
      + Met(run, steps, k, Pause) + Met(run, steps, k, Downgrade) + Met(run, steps, k, SnapshotLater)
  }

  /** Under every interleaving: refusals, reads of the strategy and drops, each against its counter. */
  lemma {:induction false} RefusalLedger(run: seq<Controller>, steps: seq<Step>, k: nat)
    requires Execution(run, steps) && k < |run|
    ensures run[k].counters.applied + Sum(run[k].tasks, IsRefused()) == Refusals(steps, k)
    ensures run[k].counters.applied == MetAny(run, steps, k) + Sum(run[k].tasks, IsDeciding())
    ensures run[k].counters.dropped + Sum(run[k].tasks, IsDropping()) == MetDropping(run, steps, k)
  {
    hide Sum;
    hide Next, Enabled;
    if k == 0 {
      SumZero(run[0].tasks, IsRefused());
      SumZero(run[0].tasks, IsDeciding());
      SumZero(run[0].tasks, IsDropping());
    } else {
      RefusalLedger(run, steps, k - 1);
      RefusalStep(run[k - 1], steps[k - 1]);
    }
  }

  lemma {:induction false} OutcomeLedger(run: seq<Controller>, steps: seq<Step>, k: nat, st: Strategy)
    requires Execution(run, steps) && k < |run| && Counted(st)
    ensures CountOf(run[k].counters, st) + Sum(run[k].tasks, Carries(st)) == Met(run, steps, k, st)
  {
    hide Next, Enabled;
    if k == 0 {
      SumZero(run[0].tasks, Carries(st));
    } else {
      OutcomeLedger(run, steps, k - 1, st);
      OutcomeStep(run[k - 1], steps[k - 1], st);
    }
  }

  /**
   At quiescence every refusal has been counted once as applied, read one
   strategy, and was counted once under it: as a pause, or as a drop and by the
   kind of drop. Downgrades and deferred snapshots have no counter of their own.
   */
  lemma {:induction false} RefusalsAreCounted(run: seq<Controller>, steps: seq<Step>, k: nat)
    requires Execution(run, steps) && k < |run| && Quiet(run[k])
    ensures var c := run[k].counters;
      && c.applied == Refusals(steps, k) == MetAny(run, steps, k)
      && c.dropped == MetDropping(run, steps, k)
      && c.flowPause == Met(run, steps, k, Pause)
      && c.volatileDrop == Met(run, steps, k, DropVolatile)
      && c.stateCoalesce == Met(run, steps, k, CoalesceState)
      && c.slowConsumer == Met(run, steps, k, Disconnect)
  {
    var ts := run[k].tasks;
    RefusalLedger(run, steps, k);
    SumZero(ts, IsRefused());
    SumZero(ts, IsDeciding());
    SumZero(ts, IsDropping());
    NothingCarried(run, steps, k, Pause);
    NothingCarried(run, steps, k, DropVolatile);
    NothingCarried(run, steps, k, CoalesceState);
    NothingCarried(run, steps, k, Disconnect);
  }

  lemma {:induction false} NothingCarried(run: seq<Controller>, steps: seq<Step>, k: nat, st: Strategy)
    requires Execution(run, steps) && k < |run| && Quiet(run[k]) && Counted(st)
    ensures CountOf(run[k].counters, st) == Met(run, steps, k, st)
  {
    OutcomeLedger(run, steps, k, st);
    SumZero(run[k].tasks, Carries(st));
  }
}
