/** The timer queue as the source has it: an ordered set changed in place and a timerfd. */
module TimerQueueObject {
  import opened Options
  import opened TimerModel
  import opened TimerRuns

  /** The first place whose entry does not precede e is where Insert puts it. */
  lemma {:induction false} InsertsAt(t: seq<Entry>, e: Entry, i: nat)
    requires i <= |t| && forall k :: 0 <= k < i ==> !Less(e, t[k]) && e != t[k]
    requires i < |t| ==> Less(e, t[i]) || e == t[i]
    ensures Insert(t, e) == if i < |t| && e == t[i] then t else t[..i] + [e] + t[i..]
  {
    if i > 0 {
      InsertsAt(t[1..], e, i - 1);
      assert t == [t[0]] + t[1..];
      assert t[..i] == [t[0]] + t[1..][..i - 1] && t[i..] == t[1..][i - 1..];
    }
  }

  /** The place where every entry before precedes the sentry and none from there does. */
  lemma {:induction false} SplitsAt(t: seq<Entry>, now: int, k: nat)
    requires k <= |t| && forall i :: 0 <= i < k ==> Less(t[i], Entry(now, UINTPTR_MAX))
    requires k < |t| ==> !Less(t[k], Entry(now, UINTPTR_MAX))
    ensures Split(t, now) == k
  {
    if k > 0 {
      SplitsAt(t[1..], now, k - 1);
    }
  }

  /** A timer that a callback adds after `pause`; an address in use is never handed out again. */
  datatype Addition = Addition(pause: nat, id: nat, timer: Timer, lag: nat)

  /** What a callback does here: it adds timers, and then takes `rest` to return. */
  datatype Callback = Callback(additions: seq<Addition>, rest: nat)

  class TimerQueue {
    var timers: seq<Entry>
    var store: map<nat, Timer>  // the timers `new` made and `delete` has not freed
    var alarm: Option<Alarm>
    var clock: int
    var reported: bool
    ghost var w: World  // where this object is in a run of the model

    ghost function Value(phase: Phase): Queue
      reads this
    {
      Queue(clock, timers, store, alarm, reported, phase)
    }

    ghost predicate Valid()
      reads this
    {
      w.q == Value(w.q.phase) && Reachable(w)
    }

    constructor ()
      ensures Valid() && w == START
    {
      timers, store, alarm, clock, reported := [], map[], None, 0, false;
      w := START;
      StartIsReachable();
    }

    /** std::set::insert, and whether the new entry takes the place of the earliest. */
    method InsertTimer(id: nat, when: int) returns (earliestChanged: bool)
      modifies this`timers
      ensures timers == Insert(old(timers), Entry(when, id))
      ensures earliestChanged <==> old(timers) == [] || when < old(timers)[0].when
    {
      earliestChanged := |timers| == 0 || when < timers[0].when;
      var e := Entry(when, id);
      var i := 0;
      while i < |timers| && !Less(e, timers[i]) && e != timers[i]
        invariant 0 <= i <= |timers|
        invariant forall k :: 0 <= k < i ==> !Less(e, timers[k]) && e != timers[k]
      {
        i := i + 1;
      }
      InsertsAt(timers, e, i);
      if !(i < |timers| && e == timers[i]) {
        timers := timers[..i] + [e] + timers[i..];
      }
    }

    /** `lag` passes between the clock reading and timerfd_settime. */
    method ResetTimerfd(expiration: int, lag: nat)
      modifies this`alarm, this`clock
      ensures Value(w.q.phase) == Arm(old(Value(w.q.phase)), expiration, lag)
    {
      var now := clock;
      var difference := expiration - now;
      if difference < MIN_DELAY {
        difference := MIN_DELAY;
      }
      var sec, nsec := difference / MICROS_PER_SECOND, difference % MICROS_PER_SECOND * 1000;
      clock := clock + lag;
      TimespecIsExact(difference);
      alarm := Some(Alarm(clock + Micros((sec, nsec)), now, lag));
    }

    method AddTimerInLoop(id: nat, timer: Timer, lag: nat)
      requires Valid() && Enabled(w.q, Add(id, timer, lag))
      modifies this
      ensures Valid() && w == Advance(old(w), Add(id, timer, lag))
    {
      w := ReachNext(w, Add(id, timer, lag));
      store := store[id := timer];
      var earliestChanged := InsertTimer(id, timer.expiration);
      if earliestChanged {
        ResetTimerfd(timer.expiration, lag);
      }
    }

    /** Time passes. */
    method Wait(d: nat)
      requires Valid()
      modifies this`clock, this`w
      ensures Valid() && w == Advance(old(w), Tick(d))
    {
      w := ReachNext(w, Tick(d));
      clock := clock + d;
    }

    /** poll returns the timerfd as readable, if it is. */
    method Poll()
      requires Valid() && w.q.phase.Idle? && !reported
      modifies this`reported, this`w
      ensures Valid() && reported == Expired(old(w).q)
      ensures w == if reported then Advance(old(w), Report) else old(w)
    {
      if alarm.Some? && alarm.value.deadline <= clock {
        w := ReachNext(w, Report);
        reported := true;
      }
    }

    /** Takes everything due out of the set, in order. */
    method GetExpired(now: int) returns (expired: seq<Entry>)
      modifies this`timers
      ensures expired == old(timers)[..Split(old(timers), now)]
      ensures timers == old(timers)[Split(old(timers), now)..]
    {
      var k := 0;
      while k < |timers| && Less(timers[k], Entry(now, UINTPTR_MAX))
        invariant 0 <= k <= |timers|
        invariant forall i :: 0 <= i < k ==> Less(timers[i], Entry(now, UINTPTR_MAX))
      {
        k := k + 1;
      }
      SplitsAt(timers, now, k);
      expired := timers[..k];
      timers := timers[k..];
    }

    /** handleRead up to the callbacks: the clock is read, `gap` passes, the timerfd is read, and
        what was due at the clock reading is taken out. */
    method TakeDue(gap: nat) returns (expired: seq<Entry>)
      requires Valid() && Enabled(w.q, ReadClock)
      modifies this
      ensures Valid() && w.q.phase == Running(expired, expired) && w.log == old(w).log
      ensures expired == old(timers)[..Split(old(timers), old(clock))]
      ensures Armed(w.q) <==> !LosesAlarm(old(w).q.(clock := old(clock) + gap), old(clock))
      ensures LosesAlarm(old(w).q.(clock := old(clock) + gap), old(clock)) ==> expired == []
    {
      var now := clock;
      reported := false;
      w := ReachNext(w, ReadClock);
      Wait(gap);
      ReadingOutcome(w, now);
      w := ReachNext(w, ReadTimerfd);
      if alarm.Some? && alarm.value.deadline <= clock {
        alarm := None;
      }
      expired := GetExpired(now);
    }

    method RunCallback(c: Callback)
      requires Valid() && MayAdd(w.q.phase)
      modifies this
      ensures Valid() && w.q.phase == old(w).q.phase && w.log == old(w).log
    {
      for i := 0 to |c.additions|
        invariant Valid() && w.q.phase == old(w).q.phase && w.log == old(w).log
      {
        var a := c.additions[i];
        Wait(a.pause);
        if a.id !in store && a.id < UINTPTR_MAX {
          AddTimerInLoop(a.id, a.timer, a.lag);
        }
      }
      Wait(c.rest);
    }

    /** The callbacks of a batch, with the timers each adds and the time it takes. */
    method RunAll(expired: seq<Entry>, script: Entry -> Callback)
      requires Valid() && w.q.phase == Running(expired, expired)
      modifies this
      ensures Valid() && w.q.phase == Running([], expired)
      ensures Dues(w.log) == Dues(old(w).log) + Whens(expired)
      ensures expired == [] ==> w == old(w)
    {
      for i := 0 to |expired|
        invariant Valid() && w.q.phase == Running(expired[i..], expired)
        invariant Dues(w.log) == Dues(old(w).log) + Whens(expired[..i])
        invariant i == 0 ==> w == old(w)
      {
        LogGrows(w.log, w.q.clock, expired, i);
        w := ReachNext(w, RunNext);
        RunCallback(script(expired[i]));
      }
      assert expired[..|expired|] == expired;
    }

    /** Restarting or deleting one timer. */
    method PutTimerBack(e: Entry)
      requires e.id in store
      modifies this`timers, this`store
      ensures Value(w.q.phase) == PutBack(old(Value(w.q.phase)), e)
    {
      var t := store[e.id];
      if Repeats(t) {
        var expiration := AddTime(clock, t.interval);
        store := store[e.id := t.(expiration := expiration)];
        var earliestChanged := InsertTimer(e.id, expiration);
      } else {
        store := store - {e.id};
      }
    }

    /** One round of reset's loop. */
    method ResetOne(e: Entry, d: Delay)
      requires Valid() && Enabled(w.q, ResetStep(d)) && e == w.q.phase.list[0]
      modifies this
      ensures Valid() && w.log == old(w).log
      ensures w.q.phase == Resetting(old(w).q.phase.list[1..], true)
      ensures e.id in old(store) && RoundIsRight(old(w).q, w.q, e)
    {
      ghost var next := ReachRound(w, d);
      PutTimerBack(e);
      clock := clock + d.pause;
      ResetToEarliest(d.lag);
      w := next;
    }

    method ResetToEarliest(lag: nat)
      requires timers != [] ==> timers[0].id in store
      modifies this`alarm, this`clock
      ensures Value(w.q.phase) == ArmEarliest(old(Value(w.q.phase)), lag)
    {
      if |timers| > 0 {
        ResetTimerfd(store[timers[0].id].expiration, lag);
      }
    }

    /** The loop that restarts or deletes each timer of a batch. */
    method Reset(expired: seq<Entry>, delays: nat -> Delay)
      requires Valid() && w.q.phase == Running([], expired)
      modifies this
      ensures Valid() && w.q.phase.Idle? && w.log == old(w).log
      ensures if expired == [] then w.q == old(w).q.(phase := Idle) else Armed(w.q)
    {
      w := ReachNext(w, BeginReset);
      for i := 0 to |expired|
        invariant Valid() && w.q.phase == Resetting(expired[i..], i > 0) && w.log == old(w).log
        invariant i == 0 ==> w.q == old(w).q.(phase := w.q.phase)
      {
        ResetOne(expired[i], delays(i));
      }
      ReachableIsGood(w);
      w := ReachNext(w, EndReset);
    }

    /** The handler of the timerfd. `script` says what each callback does, and `delays` gives the
        time that passes in reset. Exactly the entries due at the clock reading run, in order; and
        the set is left armed exactly when the alarm was not lost. */
    method HandleRead(gap: nat, script: Entry -> Callback, delays: nat -> Delay)
      requires Valid() && Enabled(w.q, ReadClock)
      modifies this
      ensures Valid() && w.q.phase.Idle?
      ensures Dues(w.log) == Dues(old(w).log) + Whens(old(timers)[..Split(old(timers), old(clock))])
      ensures Armed(w.q) <==> !LosesAlarm(old(w).q.(clock := old(clock) + gap), old(clock))
    {
      var expired := TakeDue(gap);
      RunAll(expired, script);
      Reset(expired, delays);
    }
  }

  /** The due times of the callbacks in a log. */
  ghost function Dues(log: seq<(int, int)>): seq<int> {
    seq(|log|, i requires 0 <= i < |log| => log[i].1)
  }

  ghost function Whens(t: seq<Entry>): seq<int> {
    seq(|t|, i requires 0 <= i < |t| => t[i].when)
  }

  lemma LogGrows(log: seq<(int, int)>, now: int, t: seq<Entry>, i: nat)
    requires i < |t|
    ensures Dues(log + [(now, t[i].when)]) == Dues(log) + [t[i].when]
    ensures Whens(t[..i + 1]) == Whens(t[..i]) + [t[i].when]
  {
  }

  lemma ReachRound(w: World, d: Delay) returns (w': World)
    requires Reachable(w) && Enabled(w.q, ResetStep(d))
    ensures w.q.phase.list[0].id in w.q.store && Reachable(w') && w'.log == w.log
    ensures w'.q == ResetNext(w.q, w.q.phase.list[0], d).(phase := Resetting(w.q.phase.list[1..], true))
    ensures RoundIsRight(w.q, w'.q, w.q.phase.list[0])
    ensures var q' := PutBack(w.q, w.q.phase.list[0]); q'.timers != [] ==> q'.timers[0].id in q'.store
  {
    w' := ReachNext(w, ResetStep(d));
    ReachableIsGood(w);
    PutBackKeepsEntries(w.q, w.q.phase.list);
    PutBackIsRight(w.q, w.q.phase.list);
    var q' := PutBack(w.q, w.q.phase.list[0]);
    assert q'.timers != [] ==> Keyed(q'.store, q'.timers[0]);
  }

  lemma ReadingOutcome(w: World, now: int)
    requires Reachable(w) && w.q.phase == Reading(now)
    ensures Armed(TakeExpired(w.q, now)) <==> !LosesAlarm(w.q, now)
    ensures LosesAlarm(w.q, now) ==> Split(w.q.timers, now) == 0
  {
    ReachableIsGood(w);
    TakingKeepsAlarm(w.q, now);
    NothingDueIff(w.q, now);
  }
}
