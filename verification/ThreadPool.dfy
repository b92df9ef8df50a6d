/**
 The bounded task queue (IMServer/base/ThreadPool.cc) as steps under its mutex.

 A thread that waits on a condition variable is asleep until it is signalled, or wakes up by
 itself; it is then woken, and re-checks its condition when it gets the mutex back. Which sleeper
 a notify() picks is part of the step.
 */
module ThreadPool {
  import opened Options

  type Task = nat
  type Worker = nat

  /** A thread inside run(), with what it wants to queue. */
  datatype Producer = Producer(id: nat, task: Task)

  datatype State = State(
    maxQueueSize: nat,
    running: bool,
    queue: seq<Task>,
    asleepW: set<Worker>,         // waiting on notEmpty_
    wokenW: set<Worker>,          // woken, about to re-check
    asleepP: set<Producer>,       // waiting on notFull_
    wokenP: set<Producer>,
    accepted: seq<Task>,          // history: every task queued, in order
    taken: seq<Task>)             // history: every task taken, in order

  predicate IsInitial(s: State) {
    && s.running && s.queue == [] && s.accepted == [] && s.taken == []
    && s.asleepW == s.wokenW == {} && s.asleepP == s.wokenP == {}
  }

  datatype Step =
    | CallRun(p: Producer, picked: Option<Worker>)
    | RecheckRun(p: Producer, picked: Option<Worker>)
    | CallTake(w: Worker, chosen: Option<Producer>)
    | RecheckTake(w: Worker, chosen: Option<Producer>)
    | SpuriousRun(p: Producer)
    | SpuriousTake(w: Worker)
    | Stop

  predicate IsFull(s: State) {
    s.maxQueueSize > 0 && |s.queue| >= s.maxQueueSize
  }

  /** notify() wakes a sleeper if there is one. */
  predicate Picks<T>(sleepers: set<T>, picked: Option<T>) {
    match picked
    case Some(t) => t in sleepers
    case None => sleepers == {}
  }

  predicate Enabled(s: State, step: Step) {
    match step
    case CallRun(p, picked) => p !in s.asleepP && p !in s.wokenP && Picks(s.asleepW, picked)
    case RecheckRun(p, picked) => p in s.wokenP && Picks(s.asleepW, picked)
    case CallTake(w, chosen) => w !in s.asleepW && w !in s.wokenW && Picks(s.asleepP, chosen)
    case RecheckTake(w, chosen) => w in s.wokenW && Picks(s.asleepP, chosen)
    case SpuriousRun(p) => p in s.asleepP
    case SpuriousTake(w) => w in s.asleepW
    case Stop => true
  }

  function WakeWorker(s: State, picked: Option<Worker>): State {
    match picked
    case Some(w) => s.(asleepW := s.asleepW - {w}, wokenW := s.wokenW + {w})
    case None => s
  }

  function WakeProducer(s: State, chosen: Option<Producer>): State {
    match chosen
    case Some(p) => s.(asleepP := s.asleepP - {p}, wokenP := s.wokenP + {p})
    case None => s
  }

  /** run(), from the test of the while loop on. */
  function TryRun(s: State, p: Producer, picked: Option<Worker>): State {
    if IsFull(s) && s.running then s.(asleepP := s.asleepP + {p})
    else if !s.running then s
    else WakeWorker(s.(queue := s.queue + [p.task], accepted := s.accepted + [p.task]), picked)
  }

  /** take(), from the test of the while loop on. */
  function TryTake(s: State, w: Worker, chosen: Option<Producer>): State {
    if s.queue == [] && s.running then s.(asleepW := s.asleepW + {w})
    else if s.queue == [] then s
    else
      var t := s.(queue := s.queue[1..], taken := s.taken + [s.queue[0]]);
      if s.maxQueueSize > 0 then WakeProducer(t, chosen) else t
  }

  function Apply(s: State, step: Step): State
    requires Enabled(s, step)
  {
    match step
    case CallRun(p, picked) => TryRun(s, p, picked)
    case RecheckRun(p, picked) => TryRun(s.(wokenP := s.wokenP - {p}), p, picked)
    case CallTake(w, chosen) => TryTake(s, w, chosen)
    case RecheckTake(w, chosen) => TryTake(s.(wokenW := s.wokenW - {w}), w, chosen)
    case SpuriousRun(p) => WakeProducer(s, Some(p))
    case SpuriousTake(w) => WakeWorker(s, Some(w))
    case Stop =>
      s.(running := false, asleepW := {}, wokenW := s.wokenW + s.asleepW, asleepP := {}, wokenP := s.wokenP + s.asleepP)
  }

  predicate Legal(s: State, steps: seq<Step>)
    decreases |steps|
  {
    steps == [] || (Enabled(s, steps[0]) && Legal(Apply(s, steps[0]), steps[1..]))
  }

  function Run(s: State, steps: seq<Step>): State
    requires Legal(s, steps)
    decreases |steps|
  {
    if steps == [] then s else Run(Apply(s, steps[0]), steps[1..])
  }

  // ---- the invariant -------------------------------------------------------------------------

  predicate Fifo(s: State) {
    && s.accepted == s.taken + s.queue
    && (s.maxQueueSize > 0 ==> |s.queue| <= s.maxQueueSize)
  }

  /** While a worker sleeps, there are woken workers for all queued tasks; likewise for free slots. */
  predicate Signalled(s: State) {
    && s.asleepW !! s.wokenW && s.asleepP !! s.wokenP
    && (s.asleepW != {} ==> |s.queue| <= |s.wokenW|)
    && (s.asleepP != {} ==> s.maxQueueSize > 0 && s.maxQueueSize - |s.queue| <= |s.wokenP|)
    && (!s.running ==> s.asleepW == {} && s.asleepP == {})
  }

  predicate Inv(s: State) {
    Fifo(s) && Signalled(s)
  }

  lemma RunStep(s: State, p: Producer, picked: Option<Worker>)
    requires Fifo(s) && p !in s.asleepP && p !in s.wokenP && Picks(s.asleepW, picked)
    requires s.asleepW !! s.wokenW && s.asleepP !! s.wokenP
    requires s.asleepW != {} ==> |s.queue| <= |s.wokenW|
    requires s.asleepP != {} ==> s.maxQueueSize > 0 && s.maxQueueSize - |s.queue| <= |s.wokenP| + 1
    requires s.asleepP != {} && IsFull(s) ==> s.maxQueueSize - |s.queue| <= |s.wokenP|
    requires !s.running ==> s.asleepW == {} && s.asleepP == {}
    ensures Inv(TryRun(s, p, picked))
  {
  }

  lemma TakeStep(s: State, w: Worker, chosen: Option<Producer>)
    requires Fifo(s) && w !in s.asleepW && w !in s.wokenW && Picks(s.asleepP, chosen)
    requires s.asleepW !! s.wokenW && s.asleepP !! s.wokenP
    requires s.asleepW != {} ==> |s.queue| <= |s.wokenW| + 1
    requires s.asleepP != {} ==> s.maxQueueSize > 0 && s.maxQueueSize - |s.queue| <= |s.wokenP|
    requires !s.running ==> s.asleepW == {} && s.asleepP == {}
    ensures Inv(TryTake(s, w, chosen))
  {
    if s.queue != [] {
      assert s.queue == [s.queue[0]] + s.queue[1..];
    }
  }

  lemma StepKeepsInv(s: State, step: Step)
    requires Inv(s) && Enabled(s, step)
    ensures Inv(Apply(s, step))
  {
    match step
    case CallRun(p, picked) => RunStep(s, p, picked);
    case RecheckRun(p, picked) => RunStep(s.(wokenP := s.wokenP - {p}), p, picked);
    case CallTake(w, chosen) => TakeStep(s, w, chosen);
    case RecheckTake(w, chosen) => TakeStep(s.(wokenW := s.wokenW - {w}), w, chosen);
    case _ =>
  }

  lemma {:induction false} RunKeepsInv(s: State, steps: seq<Step>)
    requires Inv(s) && Legal(s, steps)
    ensures Inv(Run(s, steps))
    decreases |steps|
  {
    if steps == [] {
    } else {
      StepKeepsInv(s, steps[0]);
      RunKeepsInv(Apply(s, steps[0]), steps[1..]);
    }
  }

  // ---- the results ---------------------------------------------------------------------------

  /** The task that a producer gets in: at its call or at a later look, it found the pool running and room. */
  function AdmittedBy(s: State, step: Step): seq<Task> {
    if (step.CallRun? || step.RecheckRun?) && s.running && !IsFull(s) then [step.p.task] else []
  }

  /** The tasks that get in during a run, in order. */
  function Admitted(s: State, steps: seq<Step>): seq<Task>
    requires Legal(s, steps)
    decreases |steps|
  {
    if steps == [] then [] else AdmittedBy(s, steps[0]) + Admitted(Apply(s, steps[0]), steps[1..])
  }

  lemma StepAdmits(s: State, step: Step)
    requires Enabled(s, step)
    ensures Apply(s, step).accepted == s.accepted + AdmittedBy(s, step)
  {
  }

  lemma {:induction false} AcceptedIsAdmitted(s: State, steps: seq<Step>)
    requires Legal(s, steps)
    ensures Run(s, steps).accepted == s.accepted + Admitted(s, steps)
    decreases |steps|
  {
    hide Enabled, Apply, AdmittedBy;
    if steps == [] {
    } else {
      StepAdmits(s, steps[0]);
      AcceptedIsAdmitted(Apply(s, steps[0]), steps[1..]);
    }
  }

  /** Tasks are taken once each in the order they got in, and the bound is kept. */
  lemma TakenInOrder(s: State, steps: seq<Step>)
    requires IsInitial(s) && Legal(s, steps)
    ensures var r := Run(s, steps);
            && r.taken + r.queue == Admitted(s, steps)
            && (r.maxQueueSize > 0 ==> |r.queue| <= r.maxQueueSize)
  {
    RunKeepsInv(s, steps);
    AcceptedIsAdmitted(s, steps);
    hide Run, Legal, Admitted, Signalled;
  }

  /** A notify is never lost: as long as someone sleeps, enough others are on their way. */
  lemma NoLostSignal(s: State, steps: seq<Step>)
    requires IsInitial(s) && Legal(s, steps)
    ensures var r := Run(s, steps);
            && (r.asleepW != {} ==> |r.queue| <= |r.wokenW|)
            && (r.asleepP != {} ==> r.maxQueueSize - |r.queue| <= |r.wokenP|)
            && (r.asleepW != {} && r.queue != [] ==> r.wokenW != {})
            && (r.asleepP != {} && !IsFull(r) ==> r.wokenP != {})
            && (!r.running ==> r.asleepW == {} && r.asleepP == {})
  {
    RunKeepsInv(s, steps);
  }

  /**
   stop(), in whatever state it finds the pool, wakes everyone; from then on nobody sleeps and no task
   gets in.
   */
  lemma StopIsFinal(s: State, before: seq<Step>, after: seq<Step>)
    requires IsInitial(s) && Legal(s, before) && Legal(Apply(Run(s, before), Stop), after)
    ensures var b, stopped := Run(s, before), Apply(Run(s, before), Stop);
            b.asleepW + b.wokenW == stopped.wokenW && b.asleepP + b.wokenP == stopped.wokenP
    ensures var b, r := Run(s, before), Run(Apply(Run(s, before), Stop), after);
            && !r.running && r.asleepW == {} && r.asleepP == {}
            && r.taken + r.queue == b.taken + b.queue
  {
    RunKeepsInv(s, before);
    hide Run, Legal;
    var b := Run(s, before);
    StepKeepsInv(b, Stop);
    StoppedStays(Apply(b, Stop), after);
    hide Signalled;
  }

  lemma {:induction false} StoppedStays(s: State, steps: seq<Step>)
    requires Inv(s) && !s.running && Legal(s, steps)
    ensures var r := Run(s, steps);
            Inv(r) && !r.running && r.asleepW == {} && r.asleepP == {} && r.accepted == s.accepted
    decreases |steps|
  {
    if steps == [] {
    } else {
      StepKeepsInv(s, steps[0]);
      StoppedStays(Apply(s, steps[0]), steps[1..]);
    }
  }

  // ---- every call is accounted for -----------------------------------------------------------

  /** How often run() was called with the task. */
  function RunCalls(steps: seq<Step>, t: Task): nat {
    if steps == [] then 0
    else (if steps[0].CallRun? && steps[0].p.task == t then 1 else 0) + RunCalls(steps[1..], t)
  }

  /** How often take() was called. */
  function TakeCalls(steps: seq<Step>): nat {
    if steps == [] then 0 else (if steps[0].CallTake? then 1 else 0) + TakeCalls(steps[1..])
  }

  function With(ps: set<Producer>, t: Task): set<Producer> {
    set p | p in ps && p.task == t
  }

  /** Copies of the task that are queued or taken, or whose producers wait for room. */
  function Held(s: State, t: Task): nat {
    multiset(s.accepted)[t] + |With(s.asleepP, t)| + |With(s.wokenP, t)|
  }

  /** Calls of take() that were served or wait. */
  function Served(s: State): nat {
    |s.taken| + |s.asleepW| + |s.wokenW|
  }

  lemma WithAdded(ps: set<Producer>, p: Producer, t: Task)
    requires p !in ps
    ensures |With(ps + {p}, t)| == |With(ps, t)| + (if p.task == t then 1 else 0)
  {
    assert With(ps + {p}, t) == With(ps, t) + (if p.task == t then {p} else {});
  }

  lemma WithRemoved(ps: set<Producer>, p: Producer, t: Task)
    requires p in ps
    ensures |With(ps - {p}, t)| == |With(ps, t)| - (if p.task == t then 1 else 0)
  {
    WithAdded(ps - {p}, p, t);
    assert ps - {p} + {p} == ps;
  }

  lemma TryRunHolds(s: State, p: Producer, picked: Option<Worker>, t: Task)
    requires s.running && p !in s.asleepP && p !in s.wokenP && Picks(s.asleepW, picked) && s.asleepW !! s.wokenW
    ensures var r := TryRun(s, p, picked);
            r.running && Held(r, t) == Held(s, t) + (if p.task == t then 1 else 0) && Served(r) == Served(s)
  {
    WithAdded(s.asleepP, p, t);
  }

  lemma TryTakeServes(s: State, w: Worker, chosen: Option<Producer>, t: Task)
    requires s.running && w !in s.asleepW && w !in s.wokenW && Picks(s.asleepP, chosen) && s.asleepP !! s.wokenP
    ensures var r := TryTake(s, w, chosen);
            r.running && Served(r) == Served(s) + 1 && Held(r, t) == Held(s, t)
  {
    if chosen.Some? {
      WakeProducerHolds(s, chosen.value, t);
    }
  }

  lemma WakeProducerHolds(s: State, p: Producer, t: Task)
    requires p in s.asleepP && s.asleepP !! s.wokenP
    ensures |With(s.asleepP - {p}, t)| + |With(s.wokenP + {p}, t)| == |With(s.asleepP, t)| + |With(s.wokenP, t)|
  {
    WithRemoved(s.asleepP, p, t);
    WithAdded(s.wokenP, p, t);
  }

  lemma StepAccounts(s: State, step: Step, t: Task)
    requires Inv(s) && s.running && Enabled(s, step) && !step.Stop?
    ensures var r := Apply(s, step);
            && r.running
            && Held(r, t) == Held(s, t) + RunCalls([step], t)
            && Served(r) == Served(s) + TakeCalls([step])
  {
    assert [step][1..] == [];
    match step
    case CallRun(p, picked) => TryRunHolds(s, p, picked, t);
    case RecheckRun(p, picked) =>
      WithRemoved(s.wokenP, p, t);
      TryRunHolds(s.(wokenP := s.wokenP - {p}), p, picked, t);
    case CallTake(w, chosen) => TryTakeServes(s, w, chosen, t);
    case RecheckTake(w, chosen) => TryTakeServes(s.(wokenW := s.wokenW - {w}), w, chosen, t);
    case SpuriousRun(p) => WakeProducerHolds(s, p, t);
    case SpuriousTake(w) =>
  }

  lemma {:induction false} RunAccounts(s: State, steps: seq<Step>, t: Task)
    requires Inv(s) && s.running && Legal(s, steps) && Stop !in steps
    ensures var r := Run(s, steps);
            && r.running
            && Held(r, t) == Held(s, t) + RunCalls(steps, t)
            && Served(r) == Served(s) + TakeCalls(steps)
    decreases |steps|
  {
    hide Inv, Enabled, Apply, Held, Served;
    if steps == [] {
    } else {
      assert steps[0] != Stop && Stop !in steps[1..];
      StepKeepsInv(s, steps[0]);
      StepAccounts(s, steps[0], t);
      RunAccounts(Apply(s, steps[0]), steps[1..], t);
      assert [steps[0]][1..] == [];
    }
  }

  /**
   Until the pool is stopped no call is lost: every task passed to run() was taken, is queued, or has its
   producer waiting for room, and every call of take() has got a task or is waiting for one.
   */
  lemma NoCallIsLost(s: State, steps: seq<Step>, t: Task)
    requires IsInitial(s) && Legal(s, steps) && Stop !in steps
    ensures var r := Run(s, steps);
            && RunCalls(steps, t) == multiset(r.taken + r.queue)[t] + |With(r.asleepP + r.wokenP, t)|
            && TakeCalls(steps) == |r.taken| + |r.asleepW + r.wokenW|
  {
    hide *;
    InitialAccounts(s, t);
    RunKeepsInv(s, steps);
    RunAccounts(s, steps, t);
    HeldAndServed(Run(s, steps), t);
  }

  lemma InitialAccounts(s: State, t: Task)
    requires IsInitial(s)
    ensures Inv(s) && s.running && Held(s, t) == 0 && Served(s) == 0
  {
    assert With(s.asleepP, t) == {} && With(s.wokenP, t) == {};
  }

  lemma HeldAndServed(s: State, t: Task)
    requires Inv(s)
    ensures Held(s, t) == multiset(s.taken + s.queue)[t] + |With(s.asleepP + s.wokenP, t)|
    ensures Served(s) == |s.taken| + |s.asleepW + s.wokenW|
  {
    assert With(s.asleepP + s.wokenP, t) == With(s.asleepP, t) + With(s.wokenP, t);
  }
}
