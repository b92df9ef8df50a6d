/**
 The timer queue as an object (IMServer/net/TimerQueue.cc): its methods take the steps of TimerSteps.

 handleRead is split where it runs the callbacks: BeginAlarm is what comes before, EndAlarm what
 comes after, and a callback may call any other method in between.
 */
module TimerQueue {
  import opened Options
  import opened T = TimerSteps

  class Queue {
    var heap: map<Addr, Timer>
    var timers: set<Entry>
    var active: set<TimerId>
    var calling: bool
    var canceling: set<TimerId>
    var fd: TimerFd
    var clock: int
    var created: nat
    ghost var now: int
    ghost var batch: seq<Entry>
    ghost var loose: set<Addr>
    ghost var freed: set<nat>

    ghost function View(): State
      reads this
    {
      State(heap, timers, active, calling, canceling, fd, clock, now, batch, loose, created, freed)
    }

    constructor (clock: int)
      requires clock > 0
      ensures IsInitial(View())
    {
      heap, timers, active, calling, canceling := map[], {}, {}, false, {};
      fd, this.clock, created := Disarmed, clock, 0;
      now, batch, loose, freed := clock, [], {}, {};
    }

    /** addTimer, on any thread: the timer exists before the loop thread knows about it. */
    method NewTimer(a: Addr, when: int, repeat: bool, interval: nat) returns (id: TimerId)
      requires a !in heap && a < UINTPTR_MAX
      modifies this
      ensures View() == T.NewTimer(old(View()), a, when, repeat, interval)
      ensures id == TimerId(a, heap[a].sequence) && id.sequence == created
    {
      created := created + 1;
      heap := heap[a := Timer(when, repeat, interval, created)];
      loose := loose + {a};
      id := TimerId(a, created);
    }

    method First() returns (e: Entry)
      requires timers != {}
      ensures IsFirst(e, timers)
    {
      FirstExists(timers);
      e :| e in timers && forall x | x in timers :: x == e || Less(e, x);
    }

    method Insert(a: Addr) returns (earliestChanged: bool)
      requires a in heap
      modifies this`timers, this`active
      ensures View() == T.Insert(old(View()), a)
      ensures earliestChanged == EarliestChanged(old(View()), heap[a].expiration)
    {
      earliestChanged := false;
      var when := heap[a].expiration;
      if timers == {} {
        earliestChanged := true;
      } else {
        var first := First();
        if when < first.when {
          earliestChanged := true;
        }
      }
      timers := timers + {Entry(when, a)};
      active := active + {TimerId(a, heap[a].sequence)};
    }

    method AddTimerInLoop(a: Addr)
      requires a in heap
      modifies this`timers, this`active, this`fd, this`loose
      ensures View() == T.AddTimerInLoop(old(View()), a)
    {
      var earliestChanged := Insert(a);
      loose := loose - {a};
      if earliestChanged {
        fd := ResetTimerFd(clock, heap[a].expiration);
      }
    }

    method CancelInLoop(id: TimerId)
      requires Inv(View())
      modifies this`heap, this`timers, this`active, this`canceling, this`freed
      ensures id in old(active) ==> id.timer in old(heap)
      ensures View() == T.CancelInLoop(old(View()), id)
    {
      MemorySafe(View(), id, []);
      if id in active {
        timers := timers - {Entry(heap[id.timer].expiration, id.timer)};
        freed := freed + {heap[id.timer].sequence};
        heap := heap - {id.timer};
        active := active - {id};
      } else if calling {
        canceling := canceling + {id};
      }
    }

    /** Moves every entry below the sentry out of timers_, in order. */
    method GetExpired(now: int) returns (expired: seq<Entry>)
      modifies this`timers
      ensures Enumerates(expired, Expired(old(timers), now))
      ensures timers == old(timers) - Expired(old(timers), now)
    {
      expired := [];
      var sentry := T.Entry.Entry(now, UINTPTR_MAX);
      var end := false;
      while timers != {} && !end
        invariant InOrder(expired)
        invariant forall e :: e in expired <==> e in old(timers) && e !in timers
        invariant timers <= old(timers)
        invariant forall e, x | e in expired && x in timers :: Less(e, x)
        invariant forall e | e in expired :: Less(e, sentry)
        invariant end ==> forall x | x in timers :: !Less(x, sentry)
        decreases timers, !end
      {
        var e := First();
        if Less(e, sentry) {
          expired := expired + [e];
          timers := timers - {e};
        } else {
          end := true;
        }
      }
      assert Expired(old(timers), now) == set e | e in expired;
    }

    /** handleRead up to the first callback. */
    method BeginAlarm() returns (expired: seq<Entry>)
      requires Inv(View()) && !calling
      modifies this
      ensures Enabled(old(View()), Begin(expired))
      ensures View() == T.BeginAlarm(old(View()), expired)
    {
      hide Inv;
      ghost var s := View();
      fd := ReadTimerFd(fd, clock);
      expired := GetExpired(clock);
      InvIsCore(s);
      MemorySafe(s, TimerId(0, 0), expired);
      EraseActive(expired);
      calling, canceling := true, {};
      now, batch := clock, expired;
    }

    method EraseActive(expired: seq<Entry>)
      requires forall i | 0 <= i < |expired| :: expired[i].timer in heap
      modifies this`active
      ensures active == old(active) - IdsOf(heap, expired)
    {
      var i := 0;
      while i < |expired|
        invariant 0 <= i <= |expired|
        invariant active == old(active) - IdsOf(heap, expired[..i])
      {
        active := active - {TimerId(expired[i].timer, heap[expired[i].timer].sequence)};
        assert expired[..i + 1] == expired[..i] + [expired[i]];
        i := i + 1;
      }
      assert expired[..i] == expired;
    }

    /** reset: re-arm the repeating timers that were not cancelled, delete the others. */
    method Reset(expired: seq<Entry>, alarm: int) returns (ghost first: Option<Entry>)
      requires Core(View()) && expired == batch && alarm == now
      modifies this
      ensures FirstOf(first, RearmAll(old(View())).timers)
      ensures View() == ArmFor(RearmAll(old(View())), first)
    {
      hide Sequences, IndexesAgree, Rearm;
      var i := 0;
      while i < |expired|
        invariant 0 <= i <= |expired| && batch == expired[i..] && now == alarm
        invariant Core(View()) && RearmAll(View()) == RearmAll(old(View()))
      {
        RearmKeeps(View());
        Turn(expired[i].timer, alarm);
        i := i + 1;
      }
      if timers == {} {
        first := None;
      } else {
        var e := First();
        first := Some(e);
        if e.when > 0 {
          fd := ResetTimerFd(clock, e.when);
        }
      }
    }

    method Turn(a: Addr, alarm: int)
      requires batch != [] && a == batch[0].timer && a in heap && alarm == now
      modifies this
      ensures View() == Rearm(old(View()))
      ensures batch == old(batch)[1..] && now == old(now)
    {
      batch := batch[1..];
      var t := heap[a];
      if t.repeat && TimerId(a, t.sequence) !in canceling {
        heap := heap[a := t.(expiration := alarm + t.interval)];
        var _ := Insert(a);
      } else {
        freed := freed + {t.sequence};
        heap := heap - {a};
      }
    }

    /** handleRead after the last callback. */
    method EndAlarm(expired: seq<Entry>, alarm: int) returns (ghost first: Option<Entry>)
      requires Inv(View()) && calling && expired == batch && alarm == now
      modifies this
      ensures Enabled(old(View()), End(first))
      ensures View() == T.EndAlarm(old(View()), first)
    {
      CallingIsFree(View(), View().(calling := false));
      calling := false;
      first := Reset(expired, alarm);
    }
  }

  lemma {:induction false} FirstExists(timers: set<Entry>)
    requires timers != {}
    ensures exists e :: IsFirst(e, timers)
    decreases timers
  {
    var e :| e in timers;
    var rest := timers - {e};
    assert timers == rest + {e};
    if rest == {} {
      assert IsFirst(e, timers);
    } else {
      FirstExists(rest);
      var f :| IsFirst(f, rest);
      assert IsFirst(if Less(e, f) then e else f, timers);
    }
  }
}
