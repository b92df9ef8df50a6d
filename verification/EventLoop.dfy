/**
 Cross-thread functor queueing (IMServer/net/EventLoop.cc) as interleaved steps.

 One loop thread runs loop(); any number of other threads call queueInLoop() and quit(). A step is
 what one thread does between two points where another thread may be seen. The eventfd is a
 counter: wakeup() adds one, handleRead() resets it, and poll() may return when it is positive. It
 may also return for any other reason.
 */
module EventLoop {

  type Functor = nat
  type ThreadId = nat

  /** Where the loop thread stands. */
  datatype Pc =
    | Outside    // before loop()
    | Check      // at while (!quit_)
    | Poll       // blocked in poll()
    | Events     // handling active channels
    | PreSwap    // doPendingFunctors, before the swap
    | Calling    // doPendingFunctors, running the swapped functors
    | Exited

  datatype State = State(
    pc: Pc,
    pending: seq<Functor>,        // pendingFunctors_
    calling: bool,                // callingPendingFunctors_
    quit: bool,                   // quit_
    eventfd: nat,
    batch: seq<Functor>,          // functors not yet run, local to doPendingFunctors
    pushed: bool,                 // the loop thread is inside queueInLoop, behind the push
    waking: set<ThreadId>,        // other threads between push (or quit_ = true) and wakeup
    queued: seq<Functor>,         // history: everything pushed, in order
    ran: seq<Functor>,            // history: everything run, in order
    early: bool)                  // history: the loop thread queued before loop(), nothing swapped since

  datatype Step =
    | Push(t: ThreadId, f: Functor)
    | Quit(t: ThreadId)
    | Wake(t: ThreadId)
    | LoopPush(f: Functor)
    | LoopPushed
    | LoopQuit
    | Enter
    | TestQuit
    | PollReturns
    | HandleRead
    | EventsDone
    | Swap
    | RunNext
    | CallingDone

  const INITIAL := State(Outside, [], false, false, 0, [], false, {}, [], [], false)

  predicate Enabled(s: State, step: Step) {
    match step
    case Push(t, _) => t !in s.waking
    case Quit(t) => t !in s.waking
    case Wake(t) => t in s.waking
    case LoopPush(_) => !s.pushed && (s.pc.Outside? || s.pc.Events? || s.pc.Calling?)
    case LoopPushed => s.pushed
    case LoopQuit => !s.pushed && (s.pc.Outside? || s.pc.Events? || s.pc.Calling?)
    case Enter => !s.pushed && s.pc.Outside?
    case TestQuit => s.pc.Check?
    case PollReturns => s.pc.Poll?
    case HandleRead => !s.pushed && s.pc.Events?
    case EventsDone => !s.pushed && s.pc.Events?
    case Swap => s.pc.PreSwap?
    case RunNext => !s.pushed && s.pc.Calling? && s.batch != []
    case CallingDone => !s.pushed && s.pc.Calling? && s.batch == []
  }

  function Apply(s: State, step: Step): State
    requires Enabled(s, step)
  {
    match step
    case Push(t, f) => s.(pending := s.pending + [f], queued := s.queued + [f], waking := s.waking + {t})
    case Quit(t) => s.(quit := true, waking := s.waking + {t})
    case Wake(t) => s.(eventfd := s.eventfd + 1, waking := s.waking - {t})
    case LoopPush(f) =>
      s.(pending := s.pending + [f], queued := s.queued + [f], pushed := true, early := s.early || s.pc.Outside?)
    case LoopPushed => s.(eventfd := if s.calling then s.eventfd + 1 else s.eventfd, pushed := false)
    case LoopQuit => s.(quit := true)
    case Enter => s.(pc := Check, quit := false)
    case TestQuit => s.(pc := if s.quit then Exited else Poll)
    case PollReturns => s.(pc := Events)
    case HandleRead => s.(eventfd := 0)
    case EventsDone => s.(pc := PreSwap, calling := true)
    case Swap => s.(pc := Calling, batch := s.pending, pending := [], early := false)
    case RunNext => s.(ran := s.ran + [s.batch[0]], batch := s.batch[1..])
    case CallingDone => s.(pc := Check, calling := false)
  }

  predicate Legal(s: State, steps: seq<Step>)
    decreases |steps|
  {
    steps == [] || (Enabled(s, steps[0]) && Legal(Apply(s, steps[0]), steps[1..]))
  }

  function Run(s: State, steps: seq<Step>): State
    requires Legal(s, steps)
    decreases |steps|
  {
    if steps == [] then s else Run(Apply(s, steps[0]), steps[1..])
  }

  // ---- the invariant -------------------------------------------------------------------------

  /** Something will make poll() return: the eventfd is readable, or a thread is about to write it. */
  predicate WakeComing(s: State) {
    s.eventfd > 0 || s.waking != {}
  }

  predicate Ordered(s: State) {
    && s.queued == s.ran + s.batch + s.pending
    && (s.batch != [] ==> s.pc.Calling?)
  }

  predicate Awake(s: State) {
    && (s.calling <==> s.pc.PreSwap? || s.pc.Calling?)
    && (s.pushed ==> s.pc.Outside? || s.pc.Events? || s.pc.Calling?)
    && (s.pushed && s.pc.Outside? ==> s.early)
    && (s.pending != [] ==>
          || s.pc.Events? || s.pc.PreSwap? || s.pc.Exited?  // the swap is still ahead, or there is none
          || WakeComing(s) || s.pushed || s.early)
    && (s.quit && s.pc.Poll? ==> WakeComing(s))
  }

  predicate Inv(s: State) {
    Ordered(s) && Awake(s)
  }

  lemma StepKeepsOrdered(s: State, step: Step)
    requires Ordered(s) && Enabled(s, step)
    ensures Ordered(Apply(s, step))
  {
    match step
    case RunNext =>
      assert s.batch == [s.batch[0]] + s.batch[1..];
    case Swap =>
      assert s.batch == [];
    case _ =>
  }

  lemma StepKeepsAwake(s: State, step: Step)
    requires Awake(s) && Enabled(s, step)
    ensures Awake(Apply(s, step))
  {
    var r := Apply(s, step);
    match step
    case Push(t, _) =>
      assert t in r.waking;
    case Quit(t) =>
      assert t in r.waking;
    case _ =>
  }

  lemma StepKeepsInv(s: State, step: Step)
    requires Inv(s) && Enabled(s, step)
    ensures Inv(Apply(s, step))
  {
    StepKeepsOrdered(s, step);
    StepKeepsAwake(s, step);
    hide Ordered, Awake, Enabled, Apply;
  }

  lemma {:induction false} RunKeepsInv(s: State, steps: seq<Step>)
    requires Inv(s) && Legal(s, steps)
    ensures Inv(Run(s, steps))
    decreases |steps|
  {
    if steps == [] {
    } else {
      StepKeepsInv(s, steps[0]);
      RunKeepsInv(Apply(s, steps[0]), steps[1..]);
    }
  }

  // ---- the results ---------------------------------------------------------------------------

  /** The functors that all threads together pass to queueInLoop in a run, in order. */
  function Queued(steps: seq<Step>): seq<Functor> {
    if steps == [] then [] else QueuedBy(steps[0]) + Queued(steps[1..])
  }

  function QueuedBy(step: Step): seq<Functor> {
    if step.Push? || step.LoopPush? then [step.f] else []
  }

  lemma StepQueues(s: State, step: Step)
    requires Enabled(s, step)
    ensures Apply(s, step).queued == s.queued + QueuedBy(step)
  {
  }

  lemma {:induction false} QueuedIsQueued(s: State, steps: seq<Step>)
    requires Legal(s, steps)
    ensures Run(s, steps).queued == s.queued + Queued(steps)
    decreases |steps|
  {
    hide Enabled, Apply, QueuedBy;
    if steps == [] {
    } else {
      StepQueues(s, steps[0]);
      QueuedIsQueued(Apply(s, steps[0]), steps[1..]);
    }
  }

  lemma OrderedSplits(s: State)
    requires Inv(s)
    ensures s.ran <= s.queued && s.queued[|s.ran|..] == s.batch + s.pending
  {
    hide Awake;
    assert s.queued == s.ran + (s.batch + s.pending);
  }

  /** Every functor passed to queueInLoop has run or is waiting, once each, in the order of the calls. */
  lemma RunsInOrder(steps: seq<Step>)
    requires Legal(INITIAL, steps)
    ensures var s := Run(INITIAL, steps);
            && s.ran <= Queued(steps)
            && Queued(steps)[|s.ran|..] == s.batch + s.pending
  {
    RunKeepsInv(INITIAL, steps);
    QueuedIsQueued(INITIAL, steps);
    hide *;
    assert Run(INITIAL, steps).queued == Queued(steps);
    OrderedSplits(Run(INITIAL, steps));
  }

  predicate QueuesBeforeLoop(steps: seq<Step>, entered: bool)
    decreases |steps|
  {
    steps != [] && ((steps[0].LoopPush? && !entered) || QueuesBeforeLoop(steps[1..], entered || steps[0].Enter?))
  }

  lemma {:induction false} EarlyNeedsEarlyCall(s: State, steps: seq<Step>)
    requires Legal(s, steps) && !s.early
    requires !QueuesBeforeLoop(steps, !s.pc.Outside?)
    ensures !Run(s, steps).early
    decreases |steps|
  {
    if steps == [] {
    } else {
      EarlyNeedsEarlyCall(Apply(s, steps[0]), steps[1..]);
    }
  }

  /** A step that swaps the queue, or by which another thread owes a wakeup. */
  predicate Stirs(step: Step) {
    step.Swap? || step.Push? || step.Quit?
  }

  /** Before the first such step nobody has written the eventfd or is about to. */
  predicate Quiet(s: State) {
    s.eventfd == 0 && s.waking == {} && !s.pc.Calling?
  }

  /** From then on the loop never gets back to poll with functors and without a wakeup. */
  predicate Stirred(s: State) {
    && (s.pc.Outside? ==> WakeComing(s))
    && ((s.pc.Check? || s.pc.Poll?) && s.pending != [] ==> WakeComing(s))
    && (s.pc.Calling? && s.pending != [] ==> WakeComing(s) || s.pushed)
  }

  lemma FirstStir(s: State, step: Step)
    requires Awake(s) && Enabled(s, step) && Quiet(s)
    ensures if Stirs(step) then Stirred(Apply(s, step)) else Quiet(Apply(s, step))
  {
    var r := Apply(s, step);
    match step
    case Push(t, _) =>
      assert t in r.waking;
    case Quit(t) =>
      assert t in r.waking;
    case _ =>
  }

  lemma StepKeepsStirred(s: State, step: Step)
    requires Awake(s) && Enabled(s, step) && Stirred(s)
    ensures Stirred(Apply(s, step))
  {
    var r := Apply(s, step);
    match step
    case Push(t, _) =>
      assert t in r.waking;
    case Quit(t) =>
      assert t in r.waking;
    case _ =>
  }

  lemma {:induction false} RunKeepsStirred(s: State, steps: seq<Step>)
    requires Awake(s) && Legal(s, steps) && Stirred(s)
    ensures Stirred(Run(s, steps))
    decreases |steps|
  {
    hide Awake, Stirred, Enabled, Apply;
    if steps == [] {
    } else {
      StepKeepsAwake(s, steps[0]);
      StepKeepsStirred(s, steps[0]);
      RunKeepsStirred(Apply(s, steps[0]), steps[1..]);
    }
  }

  lemma {:induction false} QuietOrStirred(s: State, steps: seq<Step>)
    requires Awake(s) && Legal(s, steps) && Quiet(s)
    ensures if exists step | step in steps :: Stirs(step) then Stirred(Run(s, steps)) else Quiet(Run(s, steps))
    decreases |steps|
  {
    hide Awake, Stirred, Quiet, Stirs, Enabled, Apply;
    if steps == [] {
    } else {
      var r := Apply(s, steps[0]);
      StepKeepsAwake(s, steps[0]);
      FirstStir(s, steps[0]);
      assert forall step :: step in steps <==> step == steps[0] || step in steps[1..];
      if Stirs(steps[0]) {
        RunKeepsStirred(r, steps[1..]);
      } else {
        QuietOrStirred(r, steps[1..]);
      }
    }
  }

  /**
   When the loop blocks with functors queued, a wakeup is on its way if and only if some other
   thread has queued or quit, or the queue has been swapped before. When it blocks with quit
   requested, a wakeup is always on its way.
   */
  lemma NoLostWakeup(steps: seq<Step>)
    requires Legal(INITIAL, steps)
    ensures var s := Run(INITIAL, steps);
            && (s.pc.Poll? && s.quit ==> WakeComing(s))
            && (s.pc.Poll? && s.pending != [] ==> (WakeComing(s) <==> exists step | step in steps :: Stirs(step)))
  {
    RunKeepsInv(INITIAL, steps);
    QuietOrStirred(INITIAL, steps);
  }

  /** In particular none is lost unless the loop thread itself queues something before it enters loop(). */
  lemma NoLostWakeupInLoop(steps: seq<Step>)
    requires Legal(INITIAL, steps) && !QueuesBeforeLoop(steps, false)
    ensures var s := Run(INITIAL, steps);
            s.pc.Poll? && s.pending != [] ==> WakeComing(s)
  {
    RunKeepsInv(INITIAL, steps);
    EarlyNeedsEarlyCall(INITIAL, steps);
  }

  /**
   Whenever a wakeup is coming, one turn of the loop runs everything that was queued: a waking thread
   writes the eventfd if it is not readable yet, poll() returns because it is, and the loop goes on.
   */
  lemma OneTurnRunsAll(before: seq<Step>) returns (woken: State, steps: seq<Step>)
    requires Legal(INITIAL, before) && Run(INITIAL, before).pc.Poll? && WakeComing(Run(INITIAL, before))
    ensures var s := Run(INITIAL, before);
            if s.eventfd > 0 then woken == s else exists t | t in s.waking :: woken == Apply(s, Wake(t))
    ensures woken.pc.Poll? && woken.eventfd > 0
    ensures Legal(woken, steps) && steps != [] && steps[0] == PollReturns
    ensures Run(woken, steps).pc.Check? && Run(woken, steps).ran == Queued(before) && Run(woken, steps).pending == []
    ensures forall step | step in steps :: step in {PollReturns, HandleRead, EventsDone, Swap, RunNext, CallingDone}
  {
    RunKeepsInv(INITIAL, before);
    QueuedIsQueued(INITIAL, before);
    woken, steps := OneTurn(Run(INITIAL, before));
  }

  lemma OneTurn(s: State) returns (woken: State, steps: seq<Step>)
    requires Inv(s) && s.pc.Poll? && WakeComing(s)
    ensures if s.eventfd > 0 then woken == s else exists t | t in s.waking :: woken == Apply(s, Wake(t))
    ensures woken.pc.Poll? && woken.eventfd > 0
    ensures Legal(woken, steps) && steps != [] && steps[0] == PollReturns
    ensures Run(woken, steps).pc.Check? && Run(woken, steps).ran == s.queued && Run(woken, steps).pending == []
    ensures forall step | step in steps :: step in {PollReturns, HandleRead, EventsDone, Swap, RunNext, CallingDone}
  {
    woken := s;
    if s.eventfd == 0 {
      var t :| t in s.waking;
      StepKeepsInv(s, Wake(t));
      woken := Apply(s, Wake(t));
    }
    steps := TurnOfLoop(woken);
  }

  /** Runs only add to what was run. */
  lemma {:induction false} RanGrows(s: State, steps: seq<Step>)
    requires Legal(s, steps)
    ensures s.ran <= Run(s, steps).ran
    decreases |steps|
  {
    if steps == [] {
    } else {
      RanGrows(Apply(s, steps[0]), steps[1..]);
    }
  }

  /** These functors are still ahead of the swap, or behind it and not skipped. */
  predicate WillRun(s: State, fs: seq<Functor>) {
    || ((s.pc.Poll? || s.pc.Events? || s.pc.PreSwap?) && fs <= s.queued)
    || (s.pc.Calling? && fs <= s.ran + s.batch)
  }

  lemma StepKeepsWillRun(s: State, step: Step, fs: seq<Functor>)
    requires Ordered(s) && Enabled(s, step) && WillRun(s, fs)
    ensures if step.CallingDone? then fs <= Apply(s, step).ran else WillRun(Apply(s, step), fs)
  {
    match step
    case RunNext =>
      assert s.ran + s.batch == Apply(s, step).ran + Apply(s, step).batch;
    case Swap =>
      assert s.batch == [] && s.queued == s.ran + s.pending;
    case CallingDone =>
      assert s.ran + s.batch == s.ran;
    case _ =>
  }

  lemma {:induction false} RunsWhatWillRun(s: State, steps: seq<Step>, fs: seq<Functor>)
    requires Ordered(s) && Legal(s, steps) && WillRun(s, fs) && CallingDone in steps
    ensures fs <= Run(s, steps).ran
    decreases |steps|
  {
    hide Ordered, WillRun, Enabled, Apply;
    var r := Apply(s, steps[0]);
    StepKeepsOrdered(s, steps[0]);
    StepKeepsWillRun(s, steps[0], fs);
    if steps[0] == CallingDone {
      RanGrows(r, steps[1..]);
    } else {
      RunsWhatWillRun(r, steps[1..], fs);
    }
  }

  /**
   However the threads interleave and whatever the functors do, once the loop has come through a turn
   everything that was queued while it was blocked has run.
   */
  lemma EveryTurnRunsAll(before: seq<Step>, steps: seq<Step>)
    requires Legal(INITIAL, before) && Run(INITIAL, before).pc.Poll?
    requires Legal(Run(INITIAL, before), steps) && CallingDone in steps
    ensures Queued(before) <= Run(Run(INITIAL, before), steps).ran
  {
    var s := Run(INITIAL, before);
    RunKeepsInv(INITIAL, before);
    QueuedIsQueued(INITIAL, before);
    RunsWhatWillRun(s, steps, s.queued);
  }

  lemma TurnOfLoop(s: State) returns (steps: seq<Step>)
    requires Inv(s) && s.pc.Poll?
    ensures Legal(s, steps) && steps != [] && steps[0] == PollReturns
    ensures Run(s, steps).pc.Check? && Run(s, steps).ran == s.queued && Run(s, steps).pending == []
    ensures forall step | step in steps :: step in {PollReturns, HandleRead, EventsDone, Swap, RunNext, CallingDone}
  {
    hide Run, Legal;
    var a := Apply(s, PollReturns);
    var b := Apply(a, HandleRead);
    var c := Apply(b, EventsDone);
    var d := Apply(c, Swap);
    var rest := FinishBatch(d);
    assert d.ran + d.batch == s.queued;
    var steps3 := Before(Swap, rest, c);
    var steps2 := Before(EventsDone, steps3, b);
    var steps1 := Before(HandleRead, steps2, a);
    steps := Before(PollReturns, steps1, s);
  }

  lemma Before(step: Step, rest: seq<Step>, s: State) returns (steps: seq<Step>)
    requires Enabled(s, step) && Legal(Apply(s, step), rest)
    ensures steps == [step] + rest && Legal(s, steps)
    ensures Run(s, steps) == Run(Apply(s, step), rest)
  {
    steps := [step] + rest;
    assert steps[1..] == rest;
  }

  lemma {:induction false} FinishBatch(s: State) returns (steps: seq<Step>)
    requires s.pc.Calling? && !s.pushed
    ensures Legal(s, steps)
    ensures Run(s, steps) == s.(pc := Check, calling := false, batch := [], ran := s.ran + s.batch)
    ensures forall step | step in steps :: step in {RunNext, CallingDone}
    decreases |s.batch|
  {
    if s.batch == [] {
      steps := Before(CallingDone, [], s);
    } else {
      hide Run, Legal;
      var t := Apply(s, RunNext);
      assert t == s.(ran := s.ran + [s.batch[0]], batch := s.batch[1..]);
      var rest := FinishBatch(t);
      steps := Before(RunNext, rest, s);
      assert s.ran + s.batch == t.ran + t.batch;
    }
  }

  /** queueInLoop on the loop thread before loop(): the loop blocks with the functor and no wakeup. */
  lemma EarlyFunctorStrands()
    ensures var steps := [LoopPush(7), LoopPushed, Enter, TestQuit];
            && Legal(INITIAL, steps)
            && Run(INITIAL, steps).pc.Poll? && Run(INITIAL, steps).pending == [7]
            && !WakeComing(Run(INITIAL, steps))
  {
    var a := Apply(INITIAL, LoopPush(7));
    var b := Apply(a, LoopPushed);
    var c := Apply(b, Enter);
    var steps := Before(TestQuit, [], c);
    steps := Before(Enter, steps, b);
    steps := Before(LoopPushed, steps, a);
    steps := Before(LoopPush(7), steps, INITIAL);
  }

  // ---- quitting ------------------------------------------------------------------------------

  predicate AsksToQuit(step: Step) {
    step.Quit? || step.LoopQuit?
  }

  ghost predicate NoEnter(steps: seq<Step>) {
    forall j | 0 <= j < |steps| :: !steps[j].Enter?
  }

  /** Some call of quit() lies behind the last entry into loop(). */
  ghost predicate QuitPending(steps: seq<Step>) {
    exists i | 0 <= i < |steps| :: AsksToQuit(steps[i]) && NoEnter(steps[i..])
  }

  lemma QuitPendingFirst(steps: seq<Step>)
    requires steps != []
    ensures NoEnter(steps) <==> !steps[0].Enter? && NoEnter(steps[1..])
    ensures QuitPending(steps) <==> QuitPending(steps[1..]) || (AsksToQuit(steps[0]) && NoEnter(steps))
  {
    assert forall j | 1 <= j < |steps| :: steps[j] == steps[1..][j - 1];
    if NoEnter(steps[1..]) && !steps[0].Enter? {
      forall j | 0 <= j < |steps|
        ensures !steps[j].Enter?
      {
        assert j > 0 ==> !steps[1..][j - 1].Enter?;
      }
    }
    if NoEnter(steps) {
      forall j | 0 <= j < |steps[1..]|
        ensures !steps[1..][j].Enter?
      {
        assert !steps[j + 1].Enter?;
      }
    }
    assert steps[0..] == steps;
    if i :| 0 <= i < |steps| && AsksToQuit(steps[i]) && NoEnter(steps[i..]) {
      if i > 0 {
        assert steps[1..][i - 1] == steps[i] && steps[1..][i - 1..] == steps[i..];
      }
    }
    if i :| 0 <= i < |steps[1..]| && AsksToQuit(steps[1..][i]) && NoEnter(steps[1..][i..]) {
      assert steps[i + 1] == steps[1..][i] && steps[i + 1..] == steps[1..][i..];
    }
  }

  lemma {:induction false} QuitFlag(s: State, steps: seq<Step>)
    requires Legal(s, steps)
    ensures Run(s, steps).quit <==> QuitPending(steps) || (s.quit && NoEnter(steps))
    decreases |steps|
  {
    if steps == [] {
    } else {
      QuitPendingFirst(steps);
      QuitFlag(Apply(s, steps[0]), steps[1..]);
      hide QuitPending, NoEnter;
    }
  }

  lemma {:induction false} ExitNeedsFlag(s: State, steps: seq<Step>)
    requires Legal(s, steps) && (s.pc.Exited? ==> s.quit)
    ensures Run(s, steps).pc.Exited? ==> Run(s, steps).quit
    decreases |steps|
  {
    if steps == [] {
    } else {
      ExitNeedsFlag(Apply(s, steps[0]), steps[1..]);
    }
  }

  /**
   loop() returns only for a quit() called since it was entered, and at the test it returns if and only
   if there was one.
   */
  lemma QuitDecidesExit(steps: seq<Step>)
    requires Legal(INITIAL, steps)
    ensures var s := Run(INITIAL, steps);
            && (s.pc.Exited? ==> QuitPending(steps))
            && (s.pc.Check? ==> (Apply(s, TestQuit).pc.Exited? <==> QuitPending(steps)))
            && (s.pc.Poll? && QuitPending(steps) ==> WakeComing(s))
  {
    QuitFlag(INITIAL, steps);
    ExitNeedsFlag(INITIAL, steps);
    NoLostWakeup(steps);
  }

  /** With quit requested inside loop(), the next test ends it, in every interleaving. */
  lemma {:induction false} QuitEndsLoop(s: State, steps: seq<Step>)
    requires s.quit && !s.pc.Outside? && Legal(s, steps) && (s.pc.Exited? || TestQuit in steps)
    ensures Run(s, steps).pc.Exited?
    decreases |steps|
  {
    if steps == [] {
    } else {
      QuitEndsLoop(Apply(s, steps[0]), steps[1..]);
    }
  }

  /** quit() by the loop thread before loop() is forgotten: loop() clears the flag. */
  lemma EarlyQuitIsForgotten()
    ensures var steps := [LoopQuit, Enter, TestQuit];
            Legal(INITIAL, steps) && Run(INITIAL, steps).pc.Poll? && !WakeComing(Run(INITIAL, steps))
  {
    var a := Apply(INITIAL, LoopQuit);
    var b := Apply(a, Enter);
    var steps := Before(TestQuit, [], b);
    steps := Before(Enter, steps, a);
    steps := Before(LoopQuit, steps, INITIAL);
  }

  /** So is another thread's: its wakeup costs the loop one turn, after which it blocks without one. */
  lemma EarlyQuitOfOtherIsForgotten(t: ThreadId)
    ensures var steps := [Quit(t), Wake(t), Enter, TestQuit, PollReturns, HandleRead, EventsDone, Swap, CallingDone, TestQuit];
            Legal(INITIAL, steps) && Run(INITIAL, steps).pc.Poll? && !WakeComing(Run(INITIAL, steps))
  {
    hide Legal, Run;
    var a := Apply(INITIAL, Quit(t));
    var b := Apply(a, Wake(t));
    var c := Apply(b, Enter);
    var d := Apply(c, TestQuit);
    var turn := EmptyTurn(d);
    var steps3 := Before(TestQuit, turn, c);
    var steps2 := Before(Enter, steps3, b);
    var steps1 := Before(Wake(t), steps2, a);
    var steps0 := Before(Quit(t), steps1, INITIAL);
    assert steps0 == [Quit(t), Wake(t), Enter, TestQuit, PollReturns, HandleRead, EventsDone, Swap, CallingDone, TestQuit];
  }

  lemma EmptyTurn(s: State) returns (steps: seq<Step>)
    requires s.pc.Poll? && !s.pushed && !s.quit && s.pending == []
    ensures steps == [PollReturns, HandleRead, EventsDone, Swap, CallingDone, TestQuit]
    ensures Legal(s, steps) && Run(s, steps).pc.Poll? && Run(s, steps).eventfd == 0 && Run(s, steps).waking == s.waking
  {
    var a := Apply(s, PollReturns);
    var b := Apply(a, HandleRead);
    var c := Apply(b, EventsDone);
    var d := Apply(c, Swap);
    var e := Apply(d, CallingDone);
    var f := Apply(e, TestQuit);
    assert Legal(f, []) && Run(f, []) == f;
    hide Legal, Run;
    var steps4 := Before(TestQuit, [], e);
    var steps3 := Before(CallingDone, steps4, d);
    var steps2 := Before(Swap, steps3, c);
    var steps1 := Before(EventsDone, steps2, b);
    var steps0 := Before(HandleRead, steps1, a);
    steps := Before(PollReturns, steps0, s);
  }
}
