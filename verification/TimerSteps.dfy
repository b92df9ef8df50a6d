/**
 The timer queue (IMServer/net/TimerQueue.cc, IMServer/net/Timer.h).

 Timers live on a heap under reusable addresses; a sequence number tells two timers at the same
 address apart. The queue indexes them by expiration and by address. While an alarm runs the
 callbacks, they may create, add and cancel any timer, including the one being run.
 Times are microseconds on one clock that never goes back.
 */
module TimerSteps {
  import opened Options

  type Addr = nat

  const UINTPTR_MAX := 0xFFFF_FFFF_FFFF_FFFF

  datatype Timer = Timer(expiration: int, repeat: bool, interval: nat, sequence: nat)

  datatype Entry = Entry(when: int, timer: Addr)

  datatype TimerId = TimerId(timer: Addr, sequence: nat)

  /** Not armed, or armed at some time to become readable when due. */
  datatype TimerFd = Disarmed | Armed(at: int, due: int)

  datatype State = State(
    heap: map<Addr, Timer>,
    timers: set<Entry>,           // timers_
    active: set<TimerId>,         // activeTimers_
    calling: bool,                // callingExpiredTimers_
    canceling: set<TimerId>,      // cancelingTimers_
    fd: TimerFd,
    clock: int,
    now: int,                     // when the running alarm began, local to handleRead
    batch: seq<Entry>,            // expired, local to handleRead
    loose: set<Addr>,             // created, but not yet handed to addTimerInLoop
    created: nat,                 // Timer::s_numCreated_
    freed: set<nat>)              // history: sequence numbers of deleted timers

  predicate IsInitial(s: State) {
    && s.heap == map[] && s.timers == {} && s.active == {} && !s.calling && s.canceling == {}
    && s.fd.Disarmed? && s.clock > 0 && s.batch == [] && s.loose == {} && s.freed == {} && s.created == 0
  }

  // ---- arming the timerfd --------------------------------------------------------------------

  datatype TimeSpec = TimeSpec(sec: int, nsec: int)

  function HowMuchTimeFromNow(when: int, now: int): TimeSpec {
    var microseconds := if when - now < 100 then 100 else when - now;
    TimeSpec(microseconds / 1000000, (microseconds % 1000000) * 1000)
  }

  /** A relative time of zero would disarm the timerfd; this one is at least 100 microseconds. */
  lemma TimeSpecIsPositive(when: int, now: int)
    ensures var ts := HowMuchTimeFromNow(when, now);
            && 0 <= ts.nsec < 1000000000 && ts.sec >= 0
            && ts.sec * 1000000000 + ts.nsec == 1000 * (if when - now < 100 then 100 else when - now)
  {
  }

  function ResetTimerFd(clock: int, expiration: int): TimerFd {
    var ts := HowMuchTimeFromNow(expiration, clock);
    Armed(clock, clock + ts.sec * 1000000 + ts.nsec / 1000)
  }

  lemma DueTime(clock: int, expiration: int)
    ensures ResetTimerFd(clock, expiration)
            == Armed(clock, clock + if expiration - clock < 100 then 100 else expiration - clock)
  {
  }

  /** Reading a timerfd that is due consumes the expiration. */
  function ReadTimerFd(fd: TimerFd, clock: int): TimerFd {
    if fd.Armed? && fd.due <= clock then Disarmed else fd
  }

  // ---- the operations ------------------------------------------------------------------------

  predicate Less(a: Entry, b: Entry) {
    a.when < b.when || (a.when == b.when && a.timer < b.timer)
  }

  function IdAt(s: State, a: Addr): TimerId
    requires a in s.heap
  {
    TimerId(a, s.heap[a].sequence)
  }

  /** insert() reports whether the timer precedes every other. */
  predicate EarliestChanged(s: State, when: int) {
    forall e | e in s.timers :: when < e.when
  }

  function Insert(s: State, a: Addr): State
    requires a in s.heap
  {
    s.(timers := s.timers + {Entry(s.heap[a].expiration, a)}, active := s.active + {IdAt(s, a)})
  }

  function AddTimerInLoop(s: State, a: Addr): State
    requires a in s.heap
  {
    var when := s.heap[a].expiration;
    var t := Insert(s, a).(loose := s.loose - {a});
    if EarliestChanged(s, when) then t.(fd := ResetTimerFd(s.clock, when)) else t
  }

  function Delete(s: State, a: Addr): State
    requires a in s.heap
  {
    s.(heap := s.heap - {a}, freed := s.freed + {s.heap[a].sequence})
  }

  function CancelInLoop(s: State, id: TimerId): State
    requires id in s.active ==> id.timer in s.heap
  {
    if id in s.active then
      Delete(s.(timers := s.timers - {Entry(s.heap[id.timer].expiration, id.timer)}, active := s.active - {id}), id.timer)
    else if s.calling then
      s.(canceling := s.canceling + {id})
    else
      s
  }

  /** Entries below the sentry that getExpired searches for. */
  function Expired(timers: set<Entry>, now: int): set<Entry> {
    set e | e in timers && Less(e, Entry(now, UINTPTR_MAX))
  }

  /** new Timer: the allocator returns any free address. */
  function NewTimer(s: State, a: Addr, when: int, repeat: bool, interval: nat): State {
    s.(heap := s.heap[a := Timer(when, repeat, interval, s.created + 1)], loose := s.loose + {a}, created := s.created + 1)
  }

  predicate AllocatedAll(s: State, batch: seq<Entry>) {
    && (forall i | 0 <= i < |batch| :: batch[i].timer in s.heap)
    && (forall i, j | 0 <= i < j < |batch| :: batch[i].timer != batch[j].timer)
  }

  function IdsOf(heap: map<Addr, Timer>, batch: seq<Entry>): set<TimerId>
    requires forall i | 0 <= i < |batch| :: batch[i].timer in heap
  {
    set e | e in batch :: TimerId(e.timer, heap[e.timer].sequence)
  }

  /** handleRead up to the first callback. */
  function BeginAlarm(s: State, batch: seq<Entry>): State
    requires AllocatedAll(s, batch)
  {
    s.(fd := ReadTimerFd(s.fd, s.clock), now := s.clock, batch := batch,
       timers := s.timers - Expired(s.timers, s.clock), active := s.active - IdsOf(s.heap, batch),
       calling := true, canceling := {})
  }

  /** One turn of the loop in reset, for the head of the batch. */
  function Rearm(s: State): State
    requires s.batch != [] && s.batch[0].timer in s.heap
  {
    var a := s.batch[0].timer;
    var t := s.heap[a];
    var rest := s.(batch := s.batch[1..]);
    if t.repeat && IdAt(s, a) !in s.canceling then
      Insert(rest.(heap := s.heap[a := t.(expiration := s.now + t.interval)]), a)
    else
      Delete(rest, a)
  }

  function RearmAll(s: State): State
    requires AllocatedAll(s, s.batch)
    decreases |s.batch|
  {
    if s.batch == [] then s
    else
      assert forall i | 1 <= i < |s.batch| :: s.batch[i].timer != s.batch[0].timer;
      RearmAll(Rearm(s))
  }

  ghost predicate IsFirst(e: Entry, timers: set<Entry>) {
    e in timers && forall x | x in timers :: x == e || Less(e, x)
  }

  /** The end of reset: arm for the first timer left, if its expiration is valid. */
  function ArmFor(s: State, first: Option<Entry>): State {
    if first.Some? && first.value.when > 0 then s.(fd := ResetTimerFd(s.clock, first.value.when)) else s
  }

  function EndAlarm(s: State, first: Option<Entry>): State
    requires AllocatedAll(s, s.batch)
  {
    ArmFor(RearmAll(s.(calling := false)), first)
  }

  ghost predicate FirstOf(first: Option<Entry>, timers: set<Entry>) {
    match first
    case Some(e) => IsFirst(e, timers)
    case None => timers == {}
  }

  // ---- steps ---------------------------------------------------------------------------------

  datatype Step =
    | New(a: Addr, when: int, repeat: bool, interval: nat)
    | Add(a: Addr)
    | Cancel(id: TimerId)
    | Tick(time: int)
    | Begin(batch: seq<Entry>)
    | End(first: Option<Entry>)

  predicate InOrder(batch: seq<Entry>) {
    forall i, j | 0 <= i < j < |batch| :: Less(batch[i], batch[j])
  }

  ghost predicate Enumerates(batch: seq<Entry>, es: set<Entry>) {
    InOrder(batch) && forall e :: e in batch <==> e in es
  }

  ghost predicate Enabled(s: State, step: Step) {
    match step
    case New(a, _, _, _) => a !in s.heap && a < UINTPTR_MAX
    case Add(a) => a in s.loose && a in s.heap
    case Cancel(id) => id in s.active ==> id.timer in s.heap
    case Tick(time) => time >= s.clock
    case Begin(batch) => !s.calling && Enumerates(batch, Expired(s.timers, s.clock)) && AllocatedAll(s, batch)
    case End(first) =>
      && s.calling && AllocatedAll(s, s.batch)
      && FirstOf(first, RearmAll(s.(calling := false)).timers)
  }

  ghost function Apply(s: State, step: Step): State
    requires Enabled(s, step)
  {
    match step
    case New(a, when, repeat, interval) => NewTimer(s, a, when, repeat, interval)
    case Add(a) => AddTimerInLoop(s, a)
    case Cancel(id) => CancelInLoop(s, id)
    case Tick(time) => s.(clock := time)
    case Begin(batch) => BeginAlarm(s, batch)
    case End(first) => EndAlarm(s, first)
  }

  ghost predicate Legal(s: State, steps: seq<Step>)
    decreases |steps|
  {
    steps == [] || (Enabled(s, steps[0]) && Legal(Apply(s, steps[0]), steps[1..]))
  }

  ghost function Run(s: State, steps: seq<Step>): State
    requires Legal(s, steps)
    decreases |steps|
  {
    if steps == [] then s else Run(Apply(s, steps[0]), steps[1..])
  }

  // ---- the indexes ---------------------------------------------------------------------------

  /** Timers of the running batch. */
  function Running(batch: seq<Entry>): set<Addr> {
    set e | e in batch :: e.timer
  }

  /** Live timers outside the batch and not waiting to be added: the ones the indexes must hold. */
  function Indexed(s: State): set<Addr> {
    s.heap.Keys - s.loose - Running(s.batch)
  }

  /** Both indexes hold exactly the indexed timers, the first one under their current expirations. */
  ghost predicate IndexesAgree(s: State) {
    && (forall e :: e in s.timers <==> e.timer in Indexed(s) && s.heap[e.timer].expiration == e.when)
    && (forall id :: id in s.active <==> id.timer in Indexed(s) && s.heap[id.timer].sequence == id.sequence)
  }

  /** The batch and the timers waiting to be added are live and apart from each other. */
  predicate Allocated(s: State) {
    && AllocatedAll(s, s.batch)
    && s.loose <= s.heap.Keys && s.loose !! Running(s.batch)
    && 0 < s.clock && (s.calling || s.batch != [] ==> 0 < s.now <= s.clock)
  }

  /** Sequence numbers are unique, and every timer ever created is live or was deleted, not both. */
  predicate Sequences(heap: map<Addr, Timer>, created: nat, freed: set<nat>) {
    && (forall a | a in heap :: a < UINTPTR_MAX && 1 <= heap[a].sequence <= created && heap[a].sequence !in freed)
    && (forall a, b | a in heap && b in heap && a != b :: heap[a].sequence != heap[b].sequence)
    && (forall q | q in freed :: 1 <= q <= created)
    && |heap| + |freed| == created
  }

  ghost predicate Core(s: State) {
    IndexesAgree(s) && Allocated(s) && Sequences(s.heap, s.created, s.freed)
  }

  ghost predicate Inv(s: State) {
    Core(s) && (s.batch != [] ==> s.calling)
  }

  // ---- every step keeps the invariant --------------------------------------------------------

  lemma SequencesNew(heap: map<Addr, Timer>, created: nat, freed: set<nat>, a: Addr, t: Timer)
    requires Sequences(heap, created, freed)
    requires a !in heap && a < UINTPTR_MAX && t.sequence == created + 1
    ensures Sequences(heap[a := t], created + 1, freed)
  {
    assert heap[a := t].Keys == heap.Keys + {a};
  }

  lemma SequencesRestart(heap: map<Addr, Timer>, created: nat, freed: set<nat>, a: Addr, t: Timer)
    requires Sequences(heap, created, freed)
    requires a in heap && t.sequence == heap[a].sequence
    ensures Sequences(heap[a := t], created, freed)
  {
    assert heap[a := t].Keys == heap.Keys;
  }

  lemma SequencesDelete(heap: map<Addr, Timer>, created: nat, freed: set<nat>, a: Addr)
    requires Sequences(heap, created, freed) && a in heap
    ensures Sequences(heap - {a}, created, freed + {heap[a].sequence})
  {
    MapRemoveSize(heap, a);
    var q := heap[a].sequence;
    assert |freed + {q}| == |freed| + 1;
    var r := heap - {a};
    assert forall x | x in r :: x in heap && x != a && r[x] == heap[x];
  }

  lemma MapRemoveSize<K, V>(m: map<K, V>, k: K)
    requires k in m
    ensures |m - {k}| == |m| - 1
  {
    assert (m - {k}).Keys == m.Keys - {k};
  }

  /** IndexesAgree depends on the indexed timers only. */
  lemma SameIndexed(s: State, r: State)
    requires IndexesAgree(s) && Indexed(r) == Indexed(s)
    requires r.timers == s.timers && r.active == s.active
    requires forall a | a in Indexed(s) :: r.heap[a] == s.heap[a]
    ensures IndexesAgree(r)
  {
    hide Indexed;
  }

  lemma NewKeeps(s: State, a: Addr, when: int, repeat: bool, interval: nat)
    requires Core(s) && a !in s.heap && a < UINTPTR_MAX
    ensures Core(NewTimer(s, a, when, repeat, interval))
  {
    SequencesNew(s.heap, s.created, s.freed, a, Timer(when, repeat, interval, s.created + 1));
    hide Sequences, IndexesAgree;
    NewAllocated(s, a, when, repeat, interval);
    hide Allocated;
    SameIndexed(s, NewTimer(s, a, when, repeat, interval));
  }

  lemma NewAllocated(s: State, a: Addr, when: int, repeat: bool, interval: nat)
    requires Allocated(s) && a !in s.heap
    ensures Allocated(NewTimer(s, a, when, repeat, interval))
    ensures Indexed(NewTimer(s, a, when, repeat, interval)) == Indexed(s)
  {
    assert a !in Running(s.batch);
  }

  lemma AddKeeps(s: State, a: Addr)
    requires Core(s) && a in s.loose && a in s.heap
    ensures Core(AddTimerInLoop(s, a))
  {
    hide Sequences, ResetTimerFd, EarliestChanged;
    assert Indexed(AddTimerInLoop(s, a)) == Indexed(s) + {a};
  }

  lemma CancelAgrees(s: State, id: TimerId)
    requires IndexesAgree(s) && id in s.active
    ensures id.timer in s.heap && IndexesAgree(CancelInLoop(s, id))
  {
    assert Indexed(CancelInLoop(s, id)) == Indexed(s) - {id.timer};
  }

  lemma CancelAllocated(s: State, id: TimerId)
    requires IndexesAgree(s) && Allocated(s) && id in s.active
    ensures Allocated(CancelInLoop(s, id))
  {
    assert id.timer in Indexed(s);
    hide IndexesAgree;
    assert forall i | 0 <= i < |s.batch| :: s.batch[i].timer in Running(s.batch);
  }

  lemma CancelKeeps(s: State, id: TimerId)
    requires Core(s)
    ensures id in s.active ==> id.timer in s.heap
    ensures Core(CancelInLoop(s, id))
  {
    hide Sequences, IndexesAgree, Allocated;
    if id in s.active {
      CancelAgrees(s, id);
      CancelAllocated(s, id);
      SequencesDelete(s.heap, s.created, s.freed, id.timer);
    } else {
      CancelingIsFree(s, CancelInLoop(s, id));
    }
  }

  lemma CancelingIsFree(s: State, r: State)
    requires Core(s) && r == s.(canceling := r.canceling)
    ensures Core(r)
  {
    hide Sequences;
    assert Indexed(r) == Indexed(s);
  }

  lemma BeginKeeps(s: State, batch: seq<Entry>)
    requires Core(s) && s.batch == [] && Enabled(s, Begin(batch))
    ensures Core(BeginAlarm(s, batch))
  {
    hide Sequences, ReadTimerFd;
    assert forall e | e in batch :: e in s.timers && e.timer in Indexed(s);
    assert Indexed(BeginAlarm(s, batch)) == Indexed(s) - Running(batch);
  }

  lemma PopBatch(s: State)
    requires Allocated(s) && s.batch != []
    ensures var a, rest := s.batch[0].timer, s.batch[1..];
            && a in s.heap && a !in s.loose && a !in Running(rest)
            && Running(s.batch) == Running(rest) + {a}
            && AllocatedAll(s, rest)
  {
    assert s.batch[0] in s.batch;
  }

  lemma RearmAgrees(s: State)
    requires IndexesAgree(s) && Allocated(s) && s.batch != []
    ensures IndexesAgree(Rearm(s))
  {
    PopBatch(s);
    hide Running, Allocated;
    var a, r := s.batch[0].timer, Rearm(s);
    if a in r.heap {
      assert Indexed(r) == Indexed(s) + {a};
    } else {
      assert Indexed(r) == Indexed(s);
    }
  }

  lemma RearmAllocated(s: State)
    requires Allocated(s) && s.batch != []
    ensures Allocated(Rearm(s))
  {
    PopBatch(s);
    hide Running;
    var a, r := s.batch[0].timer, Rearm(s);
    assert forall i | 0 <= i < |r.batch| :: r.batch[i].timer != a;
  }

  lemma RearmKeeps(s: State)
    requires Core(s) && s.batch != []
    ensures Core(Rearm(s))
  {
    hide Sequences, IndexesAgree;
    var a := s.batch[0].timer;
    SequencesDelete(s.heap, s.created, s.freed, a);
    SequencesRestart(s.heap, s.created, s.freed, a, s.heap[a].(expiration := s.now + s.heap[a].interval));
    RearmAgrees(s);
    RearmAllocated(s);
    hide Allocated;
  }

  lemma {:induction false} RearmAllKeeps(s: State)
    requires Core(s)
    ensures Core(RearmAll(s)) && RearmAll(s).batch == []
    decreases |s.batch|
  {
    hide Sequences, IndexesAgree;
    if s.batch == [] {
    } else {
      RearmKeeps(s);
      RearmAllKeeps(Rearm(s));
    }
  }

  lemma CallingIsFree(s: State, r: State)
    requires Core(s) && r == s.(calling := r.calling, fd := r.fd) && (r.calling ==> s.calling)
    ensures Core(r)
  {
    hide Sequences;
    assert Indexed(r) == Indexed(s);
  }

  lemma StepKeepsInv(s: State, step: Step)
    requires Inv(s) && Enabled(s, step)
    ensures Inv(Apply(s, step))
  {
    match step
    case New(a, when, repeat, interval) => NewKeeps(s, a, when, repeat, interval);
    case Add(a) => AddKeeps(s, a);
    case Cancel(id) => CancelKeeps(s, id);
    case Tick(time) => TickKeeps(s, time);
    case Begin(batch) => BeginKeeps(s, batch);
    case End(first) => EndKeeps(s, first);
  }

  lemma TickKeeps(s: State, time: int)
    requires Core(s) && time >= s.clock
    ensures Core(s.(clock := time))
  {
    hide Sequences;
    assert Indexed(s.(clock := time)) == Indexed(s);
  }

  lemma EndKeeps(s: State, first: Option<Entry>)
    requires Core(s)
    ensures Core(EndAlarm(s, first)) && EndAlarm(s, first).batch == []
  {
    hide Sequences, IndexesAgree, RearmAll;
    var t := s.(calling := false);
    CallingIsFree(s, t);
    RearmAllKeeps(t);
    CallingIsFree(RearmAll(t), EndAlarm(s, first));
  }

  lemma {:induction false} RunKeepsInv(s: State, steps: seq<Step>)
    requires Inv(s) && Legal(s, steps)
    ensures Inv(Run(s, steps))
    decreases |steps|
  {
    hide Inv, Enabled, Apply;
    if steps == [] {
    } else {
      StepKeepsInv(s, steps[0]);
      RunKeepsInv(Apply(s, steps[0]), steps[1..]);
    }
  }

  lemma InitialInv(s: State)
    requires IsInitial(s)
    ensures Inv(s) && FdReady(s)
  {
  }

  // ---- the results: indexes and memory -------------------------------------------------------

  lemma {:induction false} EntryCount(heap: map<Addr, Timer>, addrs: set<Addr>, es: set<Entry>)
    requires addrs <= heap.Keys
    requires forall e :: e in es <==> e.timer in addrs && heap[e.timer].expiration == e.when
    ensures |es| == |addrs|
    decreases addrs
  {
    if addrs == {} {
      assert es == {};
    } else {
      var a :| a in addrs;
      var e := Entry(heap[a].expiration, a);
      EntryCount(heap, addrs - {a}, es - {e});
      assert e in es;
    }
  }

  lemma {:induction false} IdCount(heap: map<Addr, Timer>, addrs: set<Addr>, ids: set<TimerId>)
    requires addrs <= heap.Keys
    requires forall id :: id in ids <==> id.timer in addrs && heap[id.timer].sequence == id.sequence
    ensures |ids| == |addrs|
    decreases addrs
  {
    if addrs == {} {
      assert ids == {};
    } else {
      var a :| a in addrs;
      var id := TimerId(a, heap[a].sequence);
      IdCount(heap, addrs - {a}, ids - {id});
      assert id in ids;
    }
  }

  /** timers_.size() == activeTimers_.size(), as the source asserts at every turn, inside reset too. */
  lemma SizesAgree(s: State)
    requires Core(s)
    ensures |s.timers| == |s.active|
  {
    hide Sequences, Allocated;
    EntryCount(s.heap, Indexed(s), s.timers);
    IdCount(s.heap, Indexed(s), s.active);
  }

  /** The sentry of getExpired splits the timers by time alone. */
  lemma ExpiredIsDue(s: State, e: Entry, now: int)
    requires Inv(s) && e in s.timers
    ensures e in Expired(s.timers, now) <==> e.when <= now
  {
    assert e.timer in s.heap;
    hide IndexesAgree, Allocated;
  }

  /**
   No operation follows a pointer to a deleted timer or deletes one twice, and the timer that insert()
   is given, new or re-armed, is in neither index yet.
   */
  lemma MemorySafe(s: State, id: TimerId, batch: seq<Entry>)
    requires Core(s)
    ensures forall a | a in s.loose || a in Running(s.batch) ::
              a in s.heap && (forall e | e in s.timers :: e.timer != a) && (forall i | i in s.active :: i.timer != a)
    ensures id in s.active ==> id.timer in s.heap && Entry(s.heap[id.timer].expiration, id.timer) in s.timers
    ensures AllocatedAll(s, s.batch)
    ensures Enumerates(batch, Expired(s.timers, s.clock)) ==>
              AllocatedAll(s, batch) && forall e | e in batch :: IdAt(s, e.timer) in s.active
  {
    hide Sequences;
    if Enumerates(batch, Expired(s.timers, s.clock)) {
      assert forall e | e in batch :: e in Expired(s.timers, s.clock) && e in s.timers;
      forall i, j | 0 <= i < j < |batch|
        ensures batch[i].timer != batch[j].timer
      {
        assert batch[i] in batch && batch[j] in batch;
        assert batch[i] in s.timers && batch[j] in s.timers;
        assert Less(batch[i], batch[j]);
      }
    }
  }

  // ---- the results: cancellation -------------------------------------------------------------

  /** The timer is gone, or will be deleted when the running alarm ends. */
  ghost predicate Doomed(s: State, id: TimerId) {
    || id.sequence in s.freed
    || (s.calling && id in s.canceling && InBatch(s, id))
  }

  ghost predicate InBatch(s: State, id: TimerId) {
    id.timer in s.heap && s.heap[id.timer].sequence == id.sequence && id.timer in Running(s.batch)
  }

  lemma DoomedIsInactive(s: State, id: TimerId)
    requires Inv(s) && Doomed(s, id)
    ensures id !in s.active
  {
    assert id in s.active ==> id.timer in Indexed(s);
  }

  lemma {:induction false} RearmAllDeletes(s: State, id: TimerId)
    requires Core(s)
    ensures s.freed <= RearmAll(s).freed
    ensures InBatch(s, id) && (id in s.canceling || !s.heap[id.timer].repeat) ==> id.sequence in RearmAll(s).freed
    decreases |s.batch|
  {
    hide Sequences, IndexesAgree;
    if s.batch == [] {
    } else {
      RearmKeeps(s);
      PopBatch(s);
      RearmAllDeletes(Rearm(s), id);
    }
  }

  lemma StepKeepsDoomed(s: State, step: Step, id: TimerId)
    requires Inv(s) && Enabled(s, step) && Doomed(s, id)
    ensures Doomed(Apply(s, step), id)
  {
    hide Sequences;
    match step
    case Cancel(other) =>
      if other in s.active {
        assert other.timer in Indexed(s);
      }
    case End(first) =>
      CallingIsFree(s, s.(calling := false));
      RearmAllDeletes(s.(calling := false), id);
    case _ =>
  }

  lemma {:induction false} RunKeepsDoomed(s: State, steps: seq<Step>, id: TimerId)
    requires Inv(s) && Legal(s, steps) && Doomed(s, id)
    ensures Doomed(Run(s, steps), id)
    decreases |steps|
  {
    hide Inv, Enabled, Apply, Doomed;
    if steps == [] {
    } else {
      StepKeepsInv(s, steps[0]);
      StepKeepsDoomed(s, steps[0], id);
      RunKeepsDoomed(Apply(s, steps[0]), steps[1..], id);
    }
  }

  predicate LiveAs(s: State, id: TimerId) {
    id.timer in s.heap && s.heap[id.timer].sequence == id.sequence
  }

  /** A cancelled timer is never armed again, also when it is cancelled while its own alarm runs. */
  lemma CancelIsFinal(s: State, id: TimerId, steps: seq<Step>)
    requires Inv(s) && LiveAs(s, id) && id.timer !in s.loose
    requires Legal(CancelInLoop(s, id), steps)
    ensures id !in Run(CancelInLoop(s, id), steps).active
  {
    var t := CancelInLoop(s, id);
    CancelKeeps(s, id);
    assert Inv(t) && Doomed(t, id) by {
      hide Sequences;
      assert id in s.active || id.timer in Running(s.batch);
    }
    hide Inv, Doomed;
    RunKeepsInv(t, steps);
    RunKeepsDoomed(t, steps, id);
    DoomedIsInactive(Run(t, steps), id);
  }

  /** The one timer that cancel does not stop is one that addTimerInLoop has not seen yet. */
  lemma CancelTooEarly(s: State, id: TimerId)
    requires Inv(s) && LiveAs(s, id) && id.timer in s.loose
    ensures id in AddTimerInLoop(CancelInLoop(s, id), id.timer).active
  {
    assert id.timer !in Indexed(s);
    hide Sequences, Allocated;
  }

  // ---- the results: repetition ---------------------------------------------------------------

  /** A timer of the running batch that repeats and has not been cancelled in this alarm. */
  ghost predicate WillRepeat(s: State, id: TimerId) {
    s.calling && InBatch(s, id) && s.heap[id.timer].repeat && id !in s.canceling
  }

  lemma StepKeepsWillRepeat(s: State, step: Step, id: TimerId)
    requires Inv(s) && Enabled(s, step) && WillRepeat(s, id)
    requires step != Cancel(id) && !step.End?
    ensures WillRepeat(Apply(s, step), id) && Apply(s, step).heap[id.timer] == s.heap[id.timer]
    ensures Apply(s, step).now == s.now
  {
    hide Sequences;
    if step.Cancel? && step.id in s.active {
      assert step.id.timer in Indexed(s);
    }
  }

  lemma {:induction false} RunKeepsWillRepeat(s: State, steps: seq<Step>, id: TimerId)
    requires Inv(s) && Legal(s, steps) && WillRepeat(s, id)
    requires forall i | 0 <= i < |steps| :: steps[i] != Cancel(id) && !steps[i].End?
    ensures var r := Run(s, steps);
            Inv(r) && WillRepeat(r, id) && r.heap[id.timer] == s.heap[id.timer] && r.now == s.now
    decreases |steps|
  {
    hide Inv, Enabled, Apply;
    if steps == [] {
    } else {
      StepKeepsInv(s, steps[0]);
      StepKeepsWillRepeat(s, steps[0], id);
      RunKeepsWillRepeat(Apply(s, steps[0]), steps[1..], id);
    }
  }

  predicate HoldsAs(s: State, id: TimerId, t: Timer) {
    id in s.active && id.timer in s.heap && s.heap[id.timer] == t
  }

  lemma RearmStays(s: State, id: TimerId, t: Timer)
    requires Core(s) && s.batch != [] && HoldsAs(s, id, t)
    ensures HoldsAs(Rearm(s), id, t)
  {
    hide Sequences;
    PopBatch(s);
    assert id.timer in Indexed(s);
  }

  lemma {:induction false} RearmAllStays(s: State, id: TimerId, t: Timer)
    requires Core(s) && HoldsAs(s, id, t)
    ensures HoldsAs(RearmAll(s), id, t)
    decreases |s.batch|
  {
    hide Sequences, IndexesAgree, HoldsAs;
    if s.batch == [] {
    } else {
      RearmStays(s, id, t);
      RearmKeeps(s);
      RearmAllStays(Rearm(s), id, t);
    }
  }

  /** Turning to one timer of the batch leaves the others in it as they are. */
  lemma RearmOther(s: State, id: TimerId)
    requires Allocated(s) && s.batch != [] && InBatch(s, id) && s.batch[0].timer != id.timer
    ensures InBatch(Rearm(s), id) && Rearm(s).heap[id.timer] == s.heap[id.timer]
  {
    PopBatch(s);
  }

  lemma {:induction false} RearmAllRearms(s: State, id: TimerId)
    requires Core(s) && InBatch(s, id) && s.heap[id.timer].repeat && id !in s.canceling
    ensures HoldsAs(RearmAll(s), id, s.heap[id.timer].(expiration := s.now + s.heap[id.timer].interval))
    decreases |s.batch|
  {
    hide Sequences, IndexesAgree;
    RearmKeeps(s);
    if s.batch[0].timer == id.timer {
      RearmAllStays(Rearm(s), id, s.heap[id.timer].(expiration := s.now + s.heap[id.timer].interval));
    } else {
      RearmOther(s, id);
      RearmAllRearms(Rearm(s), id);
    }
  }

  /**
   Through a whole alarm, a repeating timer that is due and that no callback cancels is re-armed one
   interval after the alarm began; callbacks may do anything else.
   */
  lemma RepeaterComesBack(s: State, batch: seq<Entry>, steps: seq<Step>, first: Option<Entry>, id: TimerId)
    requires Inv(s) && Enabled(s, Begin(batch)) && Legal(BeginAlarm(s, batch), steps)
    requires forall i | 0 <= i < |steps| :: steps[i] != Cancel(id) && !steps[i].End?
    requires Enabled(Run(BeginAlarm(s, batch), steps), End(first))
    requires id in s.active && id.timer in s.heap
    requires Entry(s.heap[id.timer].expiration, id.timer) in batch && s.heap[id.timer].repeat
    ensures HoldsAs(EndAlarm(Run(BeginAlarm(s, batch), steps), first), id,
                    s.heap[id.timer].(expiration := s.clock + s.heap[id.timer].interval))
  {
    BeginWillRepeat(s, batch, id);
    hide Legal, Run, BeginAlarm, Inv, WillRepeat;
    RunKeepsWillRepeat(BeginAlarm(s, batch), steps, id);
    EndRearms(Run(BeginAlarm(s, batch), steps), first, id);
  }

  lemma BeginWillRepeat(s: State, batch: seq<Entry>, id: TimerId)
    requires Inv(s) && Enabled(s, Begin(batch)) && id in s.active && id.timer in s.heap
    requires Entry(s.heap[id.timer].expiration, id.timer) in batch && s.heap[id.timer].repeat
    ensures var b := BeginAlarm(s, batch);
            Inv(b) && WillRepeat(b, id) && b.heap == s.heap && b.now == s.clock
  {
    StepKeepsInv(s, Begin(batch));
    hide Sequences;
    assert id.timer in Running(batch);
  }

  lemma EndRearms(s: State, first: Option<Entry>, id: TimerId)
    requires Inv(s) && WillRepeat(s, id)
    ensures HoldsAs(EndAlarm(s, first), id, s.heap[id.timer].(expiration := s.now + s.heap[id.timer].interval))
  {
    hide Sequences, IndexesAgree, RearmAll;
    var t := s.(calling := false);
    CallingIsFree(s, t);
    RearmAllRearms(t, id);
  }

  // ---- the results: waiting until due --------------------------------------------------------

  /**
   Cancelling touches no other timer, whatever it waits for; in particular the id of a timer that is
   gone does nothing to a new one at the same address.
   */
  lemma CancelSparesOthers(s: State, id: TimerId, other: TimerId)
    requires Inv(s) && other != id
    ensures id in s.active ==> id.timer in s.heap
    ensures var r := CancelInLoop(s, id);
            && (other in r.active <==> other in s.active)
            && (LiveAs(r, other) <==> LiveAs(s, other))
            && (LiveAs(s, other) ==> r.heap[other.timer] == s.heap[other.timer])
            && (LiveAs(s, other) ==> forall when :: Entry(when, other.timer) in r.timers <==> Entry(when, other.timer) in s.timers)
            && (!LiveAs(s, id) ==> r == s.(canceling := r.canceling))
  {
    hide Sequences, Allocated;
    assert id in s.active ==> id.timer in Indexed(s);
  }

  lemma StepKeepsWaiting(s: State, step: Step, id: TimerId, t: Timer)
    requires Inv(s) && Enabled(s, step) && HoldsAs(s, id, t) && step != Cancel(id)
    requires step.Begin? ==> s.clock < t.expiration
    ensures HoldsAs(Apply(s, step), id, t)
  {
    assert id.timer in Indexed(s);
    match step
    case Cancel(other) => CancelSparesOthers(s, other, id);
    case Begin(batch) => NotDueStays(s, batch, id, t);
    case End(first) => EndStays(s, first, id, t);
    case _ => hide Sequences;
  }

  /** An alarm takes a timer along if and only if the timer is due. */
  lemma DueIsTaken(s: State, batch: seq<Entry>, id: TimerId, t: Timer)
    requires Inv(s) && Enabled(s, Begin(batch)) && HoldsAs(s, id, t)
    ensures Entry(t.expiration, id.timer) in batch <==> t.expiration <= s.clock
  {
    var e := Entry(t.expiration, id.timer);
    assert e in s.timers by {
      assert id.timer in Indexed(s);
    }
    ExpiredIsDue(s, e, s.clock);
  }

  lemma NotDueStays(s: State, batch: seq<Entry>, id: TimerId, t: Timer)
    requires Inv(s) && Enabled(s, Begin(batch)) && HoldsAs(s, id, t) && s.clock < t.expiration
    ensures HoldsAs(BeginAlarm(s, batch), id, t)
  {
    hide Sequences;
    DueIsTaken(s, batch, id, t);
    forall e | e in batch
      ensures e.timer != id.timer
    {
      assert e in s.timers;
    }
  }

  lemma EndStays(s: State, first: Option<Entry>, id: TimerId, t: Timer)
    requires Inv(s) && HoldsAs(s, id, t)
    ensures HoldsAs(EndAlarm(s, first), id, t)
  {
    hide Sequences, IndexesAgree, RearmAll;
    CallingIsFree(s, s.(calling := false));
    RearmAllStays(s.(calling := false), id, t);
  }

  /** Along a run the timer stays active as it is up to the first alarm for which it is due, which takes it. */
  ghost predicate WaitsUntilDue(s: State, steps: seq<Step>, id: TimerId, t: Timer)
    requires Legal(s, steps)
    decreases |steps|
  {
    && HoldsAs(s, id, t)
    && (|| steps == []
        || if steps[0].Begin? && t.expiration <= s.clock then Entry(t.expiration, id.timer) in steps[0].batch
           else WaitsUntilDue(Apply(s, steps[0]), steps[1..], id, t))
  }

  /** So does every active timer, whatever happens, unless its own id is cancelled. */
  lemma {:induction false} ActiveWaits(s: State, steps: seq<Step>, id: TimerId, t: Timer)
    requires Inv(s) && Legal(s, steps) && HoldsAs(s, id, t)
    requires forall i | 0 <= i < |steps| :: steps[i] != Cancel(id)
    ensures WaitsUntilDue(s, steps, id, t)
    decreases |steps|
  {
    hide Inv, Enabled, Apply, HoldsAs;
    if steps == [] {
    } else if steps[0].Begin? && t.expiration <= s.clock {
      DueIsTaken(s, steps[0].batch, id, t);
    } else {
      StepKeepsInv(s, steps[0]);
      StepKeepsWaiting(s, steps[0], id, t);
      ActiveWaits(Apply(s, steps[0]), steps[1..], id, t);
    }
  }

  /** Created, and not yet handed to addTimerInLoop. */
  predicate LooseAs(s: State, a: Addr, t: Timer) {
    a in s.loose && a in s.heap && s.heap[a] == t
  }

  lemma {:induction false} RearmAllKeepsLoose(s: State, a: Addr, t: Timer)
    requires Core(s) && LooseAs(s, a, t)
    ensures LooseAs(RearmAll(s), a, t)
    decreases |s.batch|
  {
    hide Sequences, IndexesAgree;
    if s.batch == [] {
    } else {
      RearmKeeps(s);
      PopBatch(s);
      RearmAllKeepsLoose(Rearm(s), a, t);
    }
  }

  lemma StepKeepsLoose(s: State, step: Step, a: Addr, t: Timer)
    requires Inv(s) && Enabled(s, step) && LooseAs(s, a, t) && step != Add(a)
    ensures LooseAs(Apply(s, step), a, t)
  {
    hide Sequences;
    match step
    case Cancel(other) =>
      assert other in s.active ==> other.timer in Indexed(s);
    case End(first) =>
      hide IndexesAgree, RearmAll;
      CallingIsFree(s, s.(calling := false));
      RearmAllKeepsLoose(s.(calling := false), a, t);
    case _ =>
  }

  lemma {:induction false} RunKeepsLoose(s: State, steps: seq<Step>, a: Addr, t: Timer)
    requires Inv(s) && Legal(s, steps) && LooseAs(s, a, t)
    requires forall i | 0 <= i < |steps| :: steps[i] != Add(a)
    ensures Inv(Run(s, steps)) && LooseAs(Run(s, steps), a, t)
    decreases |steps|
  {
    hide Inv, Enabled, Apply, LooseAs;
    if steps == [] {
    } else {
      StepKeepsInv(s, steps[0]);
      StepKeepsLoose(s, steps[0], a, t);
      RunKeepsLoose(Apply(s, steps[0]), steps[1..], a, t);
    }
  }

  /**
   From addTimer to the alarm: a timer created for some time, and handed to the loop after whatever else
   happened, waits until the first alarm at or after that time. Only its own id can stop it before.
   */
  lemma TimerWaitsUntilDue(s: State, a: Addr, when: int, repeat: bool, interval: nat, between: seq<Step>, steps: seq<Step>)
    requires Inv(s) && Enabled(s, New(a, when, repeat, interval))
    requires var made := NewTimer(s, a, when, repeat, interval);
             && Legal(made, between) && (forall i | 0 <= i < |between| :: between[i] != Add(a))
             && Enabled(Run(made, between), Add(a)) && Legal(AddTimerInLoop(Run(made, between), a), steps)
    requires forall i | 0 <= i < |steps| :: steps[i] != Cancel(TimerId(a, s.created + 1))
    ensures WaitsUntilDue(AddTimerInLoop(Run(NewTimer(s, a, when, repeat, interval), between), a), steps,
                          TimerId(a, s.created + 1), Timer(when, repeat, interval, s.created + 1))
  {
    NewIsLoose(s, a, when, repeat, interval);
    hide Inv, Run, Legal, WaitsUntilDue, Enabled, NewTimer, AddTimerInLoop, LooseAs, HoldsAs;
    var t := Timer(when, repeat, interval, s.created + 1);
    RunKeepsLoose(NewTimer(s, a, when, repeat, interval), between, a, t);
    var handed := Run(NewTimer(s, a, when, repeat, interval), between);
    AddMakesActive(handed, a, t);
    ActiveWaits(AddTimerInLoop(handed, a), steps, TimerId(a, s.created + 1), t);
  }

  lemma NewIsLoose(s: State, a: Addr, when: int, repeat: bool, interval: nat)
    requires Inv(s) && Enabled(s, New(a, when, repeat, interval))
    ensures Inv(NewTimer(s, a, when, repeat, interval))
    ensures LooseAs(NewTimer(s, a, when, repeat, interval), a, Timer(when, repeat, interval, s.created + 1))
  {
    StepKeepsInv(s, New(a, when, repeat, interval));
    hide Inv;
  }

  lemma AddMakesActive(s: State, a: Addr, t: Timer)
    requires Inv(s) && LooseAs(s, a, t)
    ensures Inv(AddTimerInLoop(s, a)) && HoldsAs(AddTimerInLoop(s, a), TimerId(a, t.sequence), t)
  {
    StepKeepsInv(s, Add(a));
    hide Inv, ResetTimerFd;
  }

  // ---- the results: the timerfd --------------------------------------------------------------

  /** The timerfd becomes readable no later than when, or 100 microseconds after it was armed. */
  predicate Covers(fd: TimerFd, when: int) {
    fd.Armed? && (fd.due <= when || fd.due <= fd.at + 100)
  }

  predicate FdReady(s: State) {
    && (s.fd.Armed? ==> s.fd.at <= s.clock)
    && forall e | e in s.timers :: (s.calling ==> e.when <= 0) ==> Covers(s.fd, e.when)
  }

  lemma ArmCovers(clock: int, expiration: int, when: int)
    requires expiration <= when
    ensures Covers(ResetTimerFd(clock, expiration), when)
    ensures ResetTimerFd(clock, expiration).at == clock
  {
    DueTime(clock, expiration);
  }

  lemma AddKeepsReady(s: State, a: Addr)
    requires FdReady(s) && a in s.heap
    ensures FdReady(AddTimerInLoop(s, a))
  {
    var when := s.heap[a].expiration;
    if EarliestChanged(s, when) {
      ArmCovers(s.clock, when, when);
      forall e | e in s.timers
        ensures Covers(ResetTimerFd(s.clock, when), e.when)
      {
        ArmCovers(s.clock, when, e.when);
      }
      hide ResetTimerFd;
    } else {
      var e :| e in s.timers && e.when <= when;
    }
  }

  lemma BeginKeepsReady(s: State, batch: seq<Entry>)
    requires Inv(s) && FdReady(s) && !s.calling && AllocatedAll(s, batch)
    ensures FdReady(BeginAlarm(s, batch))
  {
    forall e | e in BeginAlarm(s, batch).timers
      ensures e.when > 0
    {
      ExpiredIsDue(s, e, s.clock);
    }
  }

  lemma {:induction false} RearmAllTimers(s: State)
    requires Core(s)
    ensures var r := RearmAll(s);
            && r.fd == s.fd && r.clock == s.clock && r.calling == s.calling
            && forall e | e in r.timers :: e in s.timers || e.when > 0
    decreases |s.batch|
  {
    hide Sequences, IndexesAgree;
    if s.batch == [] {
    } else {
      RearmKeeps(s);
      RearmAllTimers(Rearm(s));
    }
  }

  lemma EndKeepsReady(s: State, first: Option<Entry>)
    requires Inv(s) && FdReady(s) && Enabled(s, End(first))
    ensures FdReady(EndAlarm(s, first))
  {
    hide Inv, Core, RearmAll;
    var t := s.(calling := false);
    assert Core(s) by { InvIsCore(s); }
    CallingIsFree(s, t);
    RearmAllTimers(t);
    if first.Some? {
      forall e | e in RearmAll(t).timers
        ensures Covers(ResetTimerFd(s.clock, first.value.when), e.when)
      {
        ArmCovers(s.clock, first.value.when, e.when);
      }
      ArmCovers(s.clock, first.value.when, first.value.when);
      hide ResetTimerFd;
    }
  }

  lemma InvIsCore(s: State)
    requires Inv(s)
    ensures Core(s)
  {
    hide Core;
  }

  lemma StepKeepsReady(s: State, step: Step)
    requires Inv(s) && FdReady(s) && Enabled(s, step)
    ensures FdReady(Apply(s, step))
  {
    match step
    case Add(a) => AddKeepsReady(s, a);
    case Begin(batch) => BeginKeepsReady(s, batch);
    case End(first) => EndKeepsReady(s, first);
    case Cancel(id) => hide Inv;
    case _ => hide Inv;
  }

  lemma {:induction false} RunKeepsReady(s: State, steps: seq<Step>)
    requires Inv(s) && FdReady(s) && Legal(s, steps)
    ensures FdReady(Run(s, steps))
    decreases |steps|
  {
    hide Inv, FdReady, Enabled, Apply;
    if steps == [] {
    } else {
      StepKeepsInv(s, steps[0]);
      StepKeepsReady(s, steps[0]);
      RunKeepsReady(Apply(s, steps[0]), steps[1..]);
    }
  }

  predicate Readable(fd: TimerFd, clock: int) {
    fd.Armed? && fd.due <= clock
  }

  /**
   An alarm consumes the expiration it was raised for and no other, and as long as timers are left the next
   one comes no sooner than 100 microseconds after it ends: the loop never spins on the timerfd.
   */
  lemma AlarmIsConsumed(s: State, batch: seq<Entry>, first: Option<Entry>)
    requires Inv(s)
    ensures Enabled(s, Begin(batch)) ==>
              var b := BeginAlarm(s, batch);
              !Readable(b.fd, b.clock) && (!Readable(s.fd, s.clock) ==> b.fd == s.fd)
    ensures Enabled(s, End(first)) && first.Some? && first.value.when > 0 ==>
              forall clock | Readable(EndAlarm(s, first).fd, clock) :: clock >= s.clock + 100
  {
    if Enabled(s, End(first)) && first.Some? {
      hide Inv, Core, RearmAll;
      InvIsCore(s);
      CallingIsFree(s, s.(calling := false));
      RearmAllTimers(s.(calling := false));
      DueTime(s.clock, first.value.when);
    }
  }

  /** Whether a run, begun inside an alarm or not, ends inside one. */
  predicate InAlarm(before: bool, steps: seq<Step>)
    decreases |steps|
  {
    if steps == [] then before
    else InAlarm(if steps[0].Begin? then true else if steps[0].End? then false else before, steps[1..])
  }

  lemma {:induction false} CallingIsInAlarm(s: State, steps: seq<Step>)
    requires Inv(s) && Legal(s, steps)
    ensures Run(s, steps).calling <==> InAlarm(s.calling, steps)
    decreases |steps|
  {
    if steps == [] {
    } else {
      StepKeepsInv(s, steps[0]);
      StepCalling(s, steps[0]);
      hide Inv, Enabled, Apply;
      CallingIsInAlarm(Apply(s, steps[0]), steps[1..]);
    }
  }

  lemma StepCalling(s: State, step: Step)
    requires Inv(s) && Enabled(s, step)
    ensures Apply(s, step).calling == if step.Begin? then true else if step.End? then false else s.calling
  {
    if step.End? {
      hide Inv, Core, RearmAll;
      InvIsCore(s);
      CallingIsFree(s, s.(calling := false));
      RearmAllTimers(s.(calling := false));
    }
  }

  /** Between alarms every pending timer has the timerfd set for it, whatever was added or cancelled. */
  lemma AlwaysArmed(s: State, steps: seq<Step>, e: Entry)
    requires IsInitial(s) && Legal(s, steps)
    requires !InAlarm(false, steps) && e in Run(s, steps).timers
    ensures Covers(Run(s, steps).fd, e.when)
    ensures Run(s, steps).fd.at <= Run(s, steps).clock
  {
    InitialInv(s);
    CallingIsInAlarm(s, steps);
    RunKeepsReady(s, steps);
  }
}
