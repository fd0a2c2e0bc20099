/** What every run of the timer queue keeps. */
module TimerRuns {
  import opened Options
  import opened TimerModel
  import Runs

  /** The entry's key is its timer's expiration. */
  predicate Keyed(store: map<nat, Timer>, e: Entry) {
    e.id in store && store[e.id].expiration == e.when && e.id < UINTPTR_MAX
  }

  function EntryOf(store: map<nat, Timer>, id: nat): Entry
    requires id in store
  {
    Entry(store[id].expiration, id)
  }

  /** The batch taken out of the set and not yet put back or deleted. */
  function Outstanding(phase: Phase): seq<Entry> {
    match phase
    case Running(_, batch) => batch
    case Resetting(list, _) => list
    case _ => []
  }

  /** The part of it whose callbacks have run. */
  function Ran(phase: Phase): seq<Entry> {
    match phase
    case Running(todo, batch) => if |todo| <= |batch| then batch[..|batch| - |todo|] else []
    case Resetting(list, _) => list
    case _ => []
  }

  ghost predicate KeyedAll(store: map<nat, Timer>, t: seq<Entry>) {
    forall e :: e in t ==> Keyed(store, e)
  }

  ghost predicate Apart(t: seq<Entry>, u: seq<Entry>) {
    forall e :: e in t ==> e !in u
  }

  /** Every live timer is in the set or in the batch. */
  ghost predicate Covered(store: map<nat, Timer>, t: seq<Entry>, u: seq<Entry>) {
    forall id :: id in store ==> EntryOf(store, id) in t || EntryOf(store, id) in u
  }

  ghost predicate Entries(store: map<nat, Timer>, timers: seq<Entry>, out: seq<Entry>) {
    && Sorted(timers) && Sorted(out)
    && KeyedAll(store, timers) && KeyedAll(store, out)
    && Apart(out, timers)
    && Covered(store, timers, out)
  }

  predicate PhaseOk(clock: int, phase: Phase) {
    match phase
    case Reading(now) => now <= clock
    case Running(todo, batch) =>
      && |todo| <= |batch|
      && todo == batch[|batch| - |todo|..]
      && forall i :: 0 <= i < |batch| ==> batch[i].when <= clock
    case _ => true
  }

  /** The timerfd is set for the earliest entry, or 100 microseconds after the clock reading if that
      is later, and runs late by the time it took to set it. */
  predicate ArmedRight(q: Queue) {
    && q.timers != [] && q.alarm.Some?
    && q.alarm.value.readAt + q.alarm.value.lag <= q.clock
    && q.alarm.value.deadline == Max(q.timers[0].when, q.alarm.value.readAt + MIN_DELAY) + q.alarm.value.lag
  }

  /** Outside the treatment of a non-empty batch the timerfd has to be armed. */
  predicate MustBeArmed(phase: Phase) {
    match phase
    case Running(_, batch) => batch == []
    case Resetting(list, done) => done || list == []
    case _ => true
  }

  predicate Armed(q: Queue) {
    MustBeArmed(q.phase) && q.timers != [] ==> ArmedRight(q)
  }

  /** A timerfd that has to be armed is armed right or not at all; it is armed once an entry has
      been put back or deleted, and when its report is being answered. */
  predicate AlarmOk(q: Queue) {
    && (q.alarm.Some? || (q.phase.Resetting? && q.phase.done) ==> Armed(q))
    && (q.reported || q.phase.Reading? ==> q.alarm.Some?)
    && (q.reported ==> q.phase.Idle?)
  }

  ghost predicate QueueInv(q: Queue) {
    && Entries(q.store, q.timers, Outstanding(q.phase))
    && PhaseOk(q.clock, q.phase)
    && AlarmOk(q)
  }

  /** A one-shot timer has run once if it is in the treated part of the batch, and not yet
      otherwise. */
  ghost predicate OneShots(store: map<nat, Timer>, runs: map<nat, nat>, ran: seq<Entry>) {
    forall id :: id in store && !Repeats(store[id]) ==>
      id in runs && runs[id] == if EntryOf(store, id) in ran then 1 else 0
  }

  predicate NeverEarly(log: seq<(int, int)>) {
    forall i :: 0 <= i < |log| ==> log[i].1 <= log[i].0
  }

  ghost predicate HistoryOk(w: World) {
    && w.runs.Keys == w.q.store.Keys
    && OneShots(w.q.store, w.runs, Ran(w.q.phase))
    && (forall i :: 0 <= i < |w.deleted| ==> w.deleted[i] == 1)
    && NeverEarly(w.log)
  }

  /** A report made over a non-empty set finds its earliest entry due. */
  predicate OwedOk(w: World) {
    w.owed ==>
      && w.q.timers != []
      && match w.q.phase
         case Idle => w.q.reported && w.q.timers[0].when <= w.q.clock
         case Reading(now) => w.q.timers[0].when <= now
         case _ => false
  }

  ghost predicate Inv(w: World) {
    QueueInv(w.q) && HistoryOk(w) && OwedOk(w)
  }

  // ---------------------------------------------------------------- adding

  lemma AddKeepsEntries(store: map<nat, Timer>, timers: seq<Entry>, out: seq<Entry>, id: nat, timer: Timer)
    requires Entries(store, timers, out) && id !in store && id < UINTPTR_MAX
    ensures Entries(store[id := timer], Insert(timers, Entry(timer.expiration, id)), out)
  {
    var e := Entry(timer.expiration, id);
    InsertKeeps(timers, e);
    forall x | x in out
      ensures Keyed(store[id := timer], x) && x !in Insert(timers, e)
    {
      assert Keyed(store, x);
    }
    forall x | x in Insert(timers, e)
      ensures Keyed(store[id := timer], x)
    {
      assert x == e || Keyed(store, x);
    }
  }

  /** Adding keeps the timerfd right, and arms it exactly when it was armed or the new timer is the
      earliest. */
  lemma AddKeepsAlarm(q: Queue, id: nat, timer: Timer, lag: nat)
    requires Sorted(q.timers) && AlarmOk(q) && MayAdd(q.phase)
    ensures var q' := AddTimerInLoop(q, id, timer, lag);
            && AlarmOk(q')
            && q'.timers != [] && (q.timers != [] ==> q'.timers[0].when <= q.timers[0].when)
            && (MustBeArmed(q.phase) ==>
                  (Armed(q') <==> Armed(q) || timer.expiration < q.timers[0].when))
  {
    var e := Entry(timer.expiration, id);
    InsertKeeps(q.timers, e);
    ArmIsExact(q.(timers := Insert(q.timers, e), store := q.store[id := timer]), timer.expiration, lag);
  }

  lemma AddKeepsOneShots(store: map<nat, Timer>, runs: map<nat, nat>, ran: seq<Entry>, id: nat, timer: Timer)
    requires OneShots(store, runs, ran) && id !in store && KeyedAll(store, ran)
    ensures OneShots(store[id := timer], runs[id := 0], ran)
  {
    assert !Keyed(store, Entry(timer.expiration, id));
  }

  lemma AddKeepsQueue(q: Queue, id: nat, timer: Timer, lag: nat)
    requires QueueInv(q) && Enabled(q, Add(id, timer, lag))
    ensures QueueInv(AddTimerInLoop(q, id, timer, lag))
  {
    AddKeepsEntries(q.store, q.timers, Outstanding(q.phase), id, timer);
    AddKeepsAlarm(q, id, timer, lag);
  }

  lemma AddKeepsHistory(w: World, id: nat, timer: Timer, lag: nat)
    requires HistoryOk(w) && id !in w.q.store && KeyedAll(w.q.store, Outstanding(w.q.phase))
    ensures HistoryOk(Advance(w, Add(id, timer, lag)))
  {
    AddKeepsOneShots(w.q.store, w.runs, Ran(w.q.phase), id, timer);
  }

  lemma AddKeeps(w: World, id: nat, timer: Timer, lag: nat)
    requires Inv(w) && Enabled(w.q, Add(id, timer, lag))
    ensures Inv(Advance(w, Add(id, timer, lag)))
  {
    AddKeepsQueue(w.q, id, timer, lag);
    AddKeepsHistory(w, id, timer, lag);
    AddKeepsAlarm(w.q, id, timer, lag);
  }

  // ---------------------------------------------------------------- expiring

  lemma SplitKeepsEntries(store: map<nat, Timer>, timers: seq<Entry>, k: nat)
    requires Entries(store, timers, []) && k <= |timers|
    ensures Entries(store, timers[k..], timers[..k])
  {
    forall id | id in store
      ensures EntryOf(store, id) in timers[k..] || EntryOf(store, id) in timers[..k]
    {
      assert EntryOf(store, id) in timers;
      assert timers == timers[..k] + timers[k..];
    }
    forall e | e in timers[..k]
      ensures e !in timers[k..] && Keyed(store, e)
    {
      var i :| 0 <= i < k && timers[i] == e;
      forall j | k <= j < |timers|
        ensures timers[j] != e
      {
        assert Less(timers[i], timers[j]);
      }
    }
  }

  lemma IdsAreAddresses(store: map<nat, Timer>, t: seq<Entry>)
    requires KeyedAll(store, t)
    ensures forall i :: 0 <= i < |t| ==> t[i].id < UINTPTR_MAX
  {
    forall i | 0 <= i < |t|
      ensures t[i].id < UINTPTR_MAX
    {
      assert Keyed(store, t[i]);
    }
  }

  /** Nothing was due at the clock reading, yet the timerfd has expired when it is read. */
  predicate LosesAlarm(q: Queue, now: int) {
    q.timers != [] && now < q.timers[0].when && Expired(q)
  }

  lemma NothingDueIff(q: Queue, now: int)
    requires Entries(q.store, q.timers, [])
    ensures Split(q.timers, now) == 0 <==> q.timers == [] || now < q.timers[0].when
  {
    IdsAreAddresses(q.store, q.timers);
    SplitIsExact(q.timers, now);
  }

  /** Reading the timerfd leaves it armed exactly when it does not lose the alarm. */
  lemma TakingKeepsAlarm(q: Queue, now: int)
    requires Entries(q.store, q.timers, []) && AlarmOk(q) && q.phase == Reading(now)
    ensures AlarmOk(TakeExpired(q, now))
    ensures Armed(q)
    ensures Armed(TakeExpired(q, now)) <==> !LosesAlarm(q, now)
  {
    NothingDueIff(q, now);
    assert q.timers[0..] == q.timers;
  }

  lemma TakingKeepsPhase(q: Queue, now: int)
    requires Entries(q.store, q.timers, []) && now <= q.clock
    ensures PhaseOk(q.clock, TakeExpired(q, now).phase)
  {
    IdsAreAddresses(q.store, q.timers);
    SplitIsExact(q.timers, now);
  }

  lemma ReadKeeps(w: World)
    requires Inv(w) && Enabled(w.q, ReadTimerfd)
    ensures Inv(Advance(w, ReadTimerfd))
  {
    var now := w.q.phase.now;
    SplitKeepsEntries(w.q.store, w.q.timers, Split(w.q.timers, now));
    TakingKeepsAlarm(w.q, now);
    TakingKeepsPhase(w.q, now);
    assert Ran(TakeExpired(w.q, now).phase) == [];
  }

  // ---------------------------------------------------------------- running

  lemma RunKeepsOneShots(store: map<nat, Timer>, runs: map<nat, nat>, ran: seq<Entry>, e: Entry)
    requires OneShots(store, runs, ran) && Keyed(store, e) && e.id in runs && e !in ran
    ensures OneShots(store, runs[e.id := runs[e.id] + 1], ran + [e])
  {
  }

  /** The next entry of a batch has not run. */
  lemma NextIsNew(batch: seq<Entry>, n: nat)
    requires Sorted(batch) && n < |batch|
    ensures batch[n] !in batch[..n] && batch[..n + 1] == batch[..n] + [batch[n]]
  {
    forall i | 0 <= i < n
      ensures batch[i] != batch[n]
    {
      assert Less(batch[i], batch[n]);
    }
  }

  lemma RunKeepsQueue(q: Queue)
    requires QueueInv(q) && Enabled(q, RunNext)
    ensures Keyed(q.store, q.phase.todo[0]) && q.phase.todo[0].when <= q.clock
    ensures QueueInv(q.(phase := Running(q.phase.todo[1..], q.phase.batch)))
  {
    var todo, batch := q.phase.todo, q.phase.batch;
    assert todo[0] == batch[|batch| - |todo|];
    assert todo[1..] == batch[|batch| - |todo| + 1..];
  }

  lemma RunKeepsHistory(w: World)
    requires HistoryOk(w) && Enabled(w.q, RunNext) && PhaseOk(w.q.clock, w.q.phase)
    requires Sorted(w.q.phase.batch) && Keyed(w.q.store, w.q.phase.todo[0]) && w.q.phase.todo[0].when <= w.q.clock
    ensures Defined(w, RunNext) && HistoryOk(Advance(w, RunNext))
  {
    var batch, n := w.q.phase.batch, |w.q.phase.batch| - |w.q.phase.todo|;
    NextIsNew(batch, n);
    RunKeepsOneShots(w.q.store, w.runs, batch[..n], batch[n]);
  }

  lemma RunKeeps(w: World)
    requires Inv(w) && Enabled(w.q, RunNext)
    ensures Defined(w, RunNext) && Inv(Advance(w, RunNext))
  {
    RunKeepsQueue(w.q);
    RunKeepsHistory(w);
  }

  // ---------------------------------------------------------------- putting back

  /** Entries of the same timer are the same entry, so a sorted list holds a timer once. */
  lemma HeadIsAlone(store: map<nat, Timer>, timers: seq<Entry>, out: seq<Entry>)
    requires Entries(store, timers, out) && out != []
    ensures Keyed(store, out[0])
    ensures forall x :: x in timers ==> x.id != out[0].id
    ensures forall x :: x in out[1..] ==> x.id != out[0].id && x in out
  {
    assert Keyed(store, out[0]);
    forall x | x in timers
      ensures x.id != out[0].id
    {
      assert Keyed(store, x);
      assert out[0] in out;
    }
    forall x | x in out[1..]
      ensures x.id != out[0].id && x in out
    {
      var i :| 0 <= i < |out| - 1 && out[1..][i] == x;
      assert x == out[i + 1] && Less(out[0], out[i + 1]);
      assert Keyed(store, x);
    }
  }

  lemma RestartKeepsEntries(store: map<nat, Timer>, timers: seq<Entry>, out: seq<Entry>, t: Timer)
    requires Entries(store, timers, out) && out != []
    ensures Entries(store[out[0].id := t], Insert(timers, Entry(t.expiration, out[0].id)), out[1..])
  {
    var e := Entry(t.expiration, out[0].id);
    var store' := store[e.id := t];
    HeadIsAlone(store, timers, out);
    InsertKeeps(timers, e);
    forall x | x in Insert(timers, e)
      ensures Keyed(store', x)
    {
      assert x == e || Keyed(store, x);
    }
    forall x | x in out[1..]
      ensures Keyed(store', x) && x !in Insert(timers, e)
    {
      assert Keyed(store, x);
    }
    RestCovered(store, timers, out, store', e);
  }

  lemma RestCovered(store: map<nat, Timer>, timers: seq<Entry>, out: seq<Entry>, store': map<nat, Timer>, e: Entry)
    requires Covered(store, timers, out) && out != [] && Sorted(timers)
    requires out[0].id == e.id && Keyed(store, out[0])
    requires e.id in store' && EntryOf(store', e.id) == e && forall id :: id in store' ==> id == e.id || (id in store && store[id] == store'[id])
    ensures Covered(store', Insert(timers, e), out[1..])
  {
    InsertKeeps(timers, e);
    forall id | id in store'
      ensures EntryOf(store', id) in Insert(timers, e) || EntryOf(store', id) in out[1..]
    {
      if id != e.id {
        assert EntryOf(store, id) in timers || EntryOf(store, id) in out;
        assert out == [out[0]] + out[1..];
      }
    }
  }

  lemma DeleteKeepsEntries(store: map<nat, Timer>, timers: seq<Entry>, out: seq<Entry>)
    requires Entries(store, timers, out) && out != []
    ensures Entries(store - {out[0].id}, timers, out[1..])
  {
    var store' := store - {out[0].id};
    HeadIsAlone(store, timers, out);
    forall x | x in timers || x in out[1..]
      ensures Keyed(store', x)
    {
      assert Keyed(store, x);
    }
    forall id | id in store'
      ensures EntryOf(store', id) in timers || EntryOf(store', id) in out[1..]
    {
      assert EntryOf(store, id) in timers || EntryOf(store, id) in out;
      assert out == [out[0]] + out[1..];
    }
  }

  lemma EarliestIsArmed(q: Queue, lag: nat)
    requires KeyedAll(q.store, q.timers) && q.timers != []
    ensures ArmedRight(ArmEarliest(q, lag))
  {
    assert Keyed(q.store, q.timers[0]);
    ArmIsExact(q, q.timers[0].when, lag);
  }

  lemma PutBackKeepsEntries(q: Queue, list: seq<Entry>)
    requires list != [] && Entries(q.store, q.timers, list)
    ensures list[0].id in q.store
    ensures var q' := PutBack(q, list[0]); Entries(q'.store, q'.timers, list[1..])
  {
    assert Keyed(q.store, list[0]);
    var t := q.store[list[0].id];
    if Repeats(t) {
      RestartKeepsEntries(q.store, q.timers, list, Restarted(q, t));
    } else {
      DeleteKeepsEntries(q.store, q.timers, list);
    }
  }

  /** One round of reset's loop over the rest of a batch: the head is put back or deleted, and the
      timerfd is armed for whatever is now earliest. */
  lemma ResetKeepsQueue(q: Queue, list: seq<Entry>, d: Delay)
    requires list != [] && Entries(q.store, q.timers, list)
    ensures list[0].id in q.store
    ensures var q' := ResetNext(q, list[0], d);
            Entries(q'.store, q'.timers, list[1..]) && (q'.timers != [] ==> ArmedRight(q'))
  {
    PutBackKeepsEntries(q, list);
    var q' := PutBack(q, list[0]);
    if q'.timers != [] {
      EarliestIsArmed(q'.(clock := q'.clock + d.pause), d.lag);
    }
  }

  lemma RestartKeepsOneShots(store: map<nat, Timer>, runs: map<nat, nat>, list: seq<Entry>, t: Timer)
    requires list != [] && Repeats(t) && OneShots(store, runs, list)
    ensures OneShots(store[list[0].id := t], runs, list[1..])
  {
    assert list == [list[0]] + list[1..];
  }

  lemma DeleteKeepsOneShots(store: map<nat, Timer>, runs: map<nat, nat>, list: seq<Entry>)
    requires list != [] && Keyed(store, list[0]) && !Repeats(store[list[0].id]) && OneShots(store, runs, list)
    ensures list[0].id in runs && runs[list[0].id] == 1
    ensures OneShots(store - {list[0].id}, runs - {list[0].id}, list[1..])
  {
    assert list == [list[0]] + list[1..];
    assert EntryOf(store, list[0].id) == list[0];
  }

  /** A round touches the client's counts only where it deletes. */
  lemma ResetKeepsHistory(w: World, d: Delay)
    requires HistoryOk(w) && Enabled(w.q, ResetStep(d)) && Keyed(w.q.store, w.q.phase.list[0])
    ensures Defined(w, ResetStep(d)) && HistoryOk(Advance(w, ResetStep(d)))
  {
    if Repeats(w.q.store[w.q.phase.list[0].id]) {
      RestartKeepsHistory(w, d);
    } else {
      DeleteKeepsHistory(w, d);
    }
  }

  lemma RestartKeepsHistory(w: World, d: Delay)
    requires HistoryOk(w) && Enabled(w.q, ResetStep(d)) && Keyed(w.q.store, w.q.phase.list[0])
    requires Repeats(w.q.store[w.q.phase.list[0].id])
    ensures Defined(w, ResetStep(d)) && HistoryOk(Advance(w, ResetStep(d)))
  {
    RestartKeepsOneShots(w.q.store, w.runs, w.q.phase.list, Restarted(w.q, w.q.store[w.q.phase.list[0].id]));
  }

  lemma DeleteKeepsHistory(w: World, d: Delay)
    requires HistoryOk(w) && Enabled(w.q, ResetStep(d)) && Keyed(w.q.store, w.q.phase.list[0])
    requires !Repeats(w.q.store[w.q.phase.list[0].id])
    ensures Defined(w, ResetStep(d)) && HistoryOk(Advance(w, ResetStep(d)))
  {
    DeleteKeepsOneShots(w.q.store, w.runs, w.q.phase.list);
  }

  lemma RoundKeepsQueue(q: Queue, d: Delay)
    requires QueueInv(q) && Enabled(q, ResetStep(d))
    ensures Keyed(q.store, q.phase.list[0])
    ensures QueueInv(ResetNext(q, q.phase.list[0], d).(phase := Resetting(q.phase.list[1..], true)))
  {
    assert Keyed(q.store, q.phase.list[0]);
    ResetKeepsQueue(q, q.phase.list, d);
  }

  lemma ResetKeeps(w: World, d: Delay)
    requires Inv(w) && Enabled(w.q, ResetStep(d))
    ensures Defined(w, ResetStep(d)) && Inv(Advance(w, ResetStep(d)))
  {
    RoundKeepsQueue(w.q, d);
    ResetKeepsHistory(w, d);
  }

  // ---------------------------------------------------------------- every run

  lemma QuietStepKeeps(w: World, step: Step)
    requires Inv(w) && Enabled(w.q, step)
    requires step.Tick? || step.Report? || step.ReadClock? || step.EndReset?
    ensures Defined(w, step) && Inv(Advance(w, step))
  {
    var q := Advance(w, step).q;
    assert Outstanding(q.phase) == Outstanding(w.q.phase) && Ran(q.phase) == Ran(w.q.phase);
    QuietStepKeepsQueue(w.q, q, step);
  }

  lemma QuietStepKeepsQueue(q: Queue, q': Queue, step: Step)
    requires QueueInv(q) && Enabled(q, step) && Outstanding(q'.phase) == Outstanding(q.phase)
    requires match step
             case Tick(d) => q' == q.(clock := q.clock + d)
             case Report => q' == q.(reported := true)
             case ReadClock => q' == q.(reported := false, phase := Reading(q.clock))
             case EndReset => q' == q.(phase := Idle)
             case _ => false
    ensures QueueInv(q')
  {
  }

  lemma BeginResetKeeps(w: World)
    requires Inv(w) && Enabled(w.q, BeginReset)
    ensures Inv(Advance(w, BeginReset))
  {
    var batch := w.q.phase.batch;
    assert batch[..|batch|] == batch;
  }

  lemma StepKeeps(w: World, step: Step)
    requires Inv(w) && Enabled(w.q, step)
    ensures Defined(w, step) && Inv(Advance(w, step))
  {
    match step
    case Add(id, timer, lag) => AddKeeps(w, id, timer, lag);
    case ReadTimerfd => ReadKeeps(w);
    case RunNext => RunKeeps(w);
    case BeginReset => BeginResetKeeps(w);
    case ResetStep(d) => ResetKeeps(w, d);
    case _ => QuietStepKeeps(w, step);
  }

  lemma RunInvariant(steps: seq<Step>, ws: seq<World>, n: nat)
    requires Runs.IsRun(START, Next, steps, ws) && n < |ws|
    ensures Inv(ws[n])
  {
    forall w, step, w' | Inv(w) && Next(w, step, w')
      ensures Inv(w')
    {
      StepKeeps(w, step);
    }
    Runs.Invariant(START, Next, steps, ws, Inv, n);
  }

  /** No run touches a timer that is gone: whatever comes next is defined. */
  lemma NeverDangling(steps: seq<Step>, ws: seq<World>, n: nat, step: Step)
    requires Runs.IsRun(START, Next, steps, ws) && n < |ws| && Enabled(ws[n].q, step)
    ensures Defined(ws[n], step)
  {
    RunInvariant(steps, ws, n);
    StepKeeps(ws[n], step);
  }

  /** Over every run: no callback ran before its time, every deleted timer had run exactly once,
      and between handlers every live timer is in the set, a one-shot timer there has not run, and
      the timerfd is armed for the earliest entry or not at all. */
  lemma TimersAreSafe(steps: seq<Step>, ws: seq<World>, n: nat)
    requires Runs.IsRun(START, Next, steps, ws) && n < |ws|
    ensures NeverEarly(ws[n].log)
    ensures forall i :: 0 <= i < |ws[n].deleted| ==> ws[n].deleted[i] == 1
    ensures forall e :: e in ws[n].q.timers ==> Keyed(ws[n].q.store, e)
    ensures ws[n].q.phase.Idle? ==>
              && (ws[n].q.timers != [] && ws[n].q.alarm.Some? ==> ArmedRight(ws[n].q))
              && Entries(ws[n].q.store, ws[n].q.timers, [])
              && (forall id :: id in ws[n].q.store && !Repeats(ws[n].q.store[id]) ==> id in ws[n].runs && ws[n].runs[id] == 0)
  {
    RunInvariant(steps, ws, n);
  }

  /** A timer that is in the set is there under one entry only. */
  lemma InSetOnce(store: map<nat, Timer>, timers: seq<Entry>, id: nat) returns (i: nat)
    requires Entries(store, timers, []) && id in store
    ensures i < |timers| && timers[i].id == id
    ensures forall j :: 0 <= j < |timers| && timers[j].id == id ==> j == i
  {
    assert EntryOf(store, id) in timers;
    i :| i < |timers| && timers[i] == EntryOf(store, id);
    forall j | 0 <= j < |timers| && timers[j].id == id
      ensures j == i
    {
      assert Keyed(store, timers[j]);
      SortedHasNoDuplicates(timers, i, j);
    }
  }

  lemma SortedHasNoDuplicates(t: seq<Entry>, i: nat, j: nat)
    requires Sorted(t) && i < |t| && j < |t| && t[i] == t[j]
    ensures i == j
  {
  }

  // ---------------------------------------------------------------- when a timer comes back

  /** d microseconds are the whole ones of an interval in seconds. */
  predicate WholeMicros(d: int, interval: real) {
    d as real <= interval * 1_000_000.0 < d as real + 1.0
  }

  /** A round over e: a timer with an interval comes back under one entry that interval after the
      clock reading, with the same interval; any other is gone; and all other timers are as before. */
  ghost predicate RoundIsRight(q: Queue, q': Queue, e: Entry)
    requires e.id in q.store
  {
    var t := q.store[e.id];
    && (forall id: nat :: id != e.id ==> (id in q'.store <==> id in q.store) && (id in q.store && id in q'.store ==> q'.store[id] == q.store[id]))
    && (forall x: Entry :: x.id != e.id ==> (x in q'.timers <==> x in q.timers))
    && if t.interval > 0.0
       then
         && e.id in q'.store && q'.store[e.id].interval == t.interval
         && WholeMicros(q'.store[e.id].expiration - q.clock, t.interval)
         && (forall x :: x in q'.timers && x.id == e.id <==> x == Entry(q'.store[e.id].expiration, e.id))
       else e.id !in q'.store && forall x :: x in q'.timers ==> x.id != e.id
  }

  lemma PutBackIsRight(q: Queue, list: seq<Entry>)
    requires list != [] && Entries(q.store, q.timers, list)
    ensures list[0].id in q.store && RoundIsRight(q, PutBack(q, list[0]), list[0])
  {
    HeadIsAlone(q.store, q.timers, list);
    var e, t := list[0], q.store[list[0].id];
    AddTimeIsExact(q.clock, t.interval);
    InsertKeeps(q.timers, Entry(AddTime(q.clock, t.interval), e.id));
  }

  /** Over every run, each round of reset does this. */
  lemma ComesBackInTime(steps: seq<Step>, ws: seq<World>, i: nat, d: Delay)
    requires Runs.IsRun(START, Next, steps, ws) && i < |steps| && steps[i] == ResetStep(d)
    ensures ws[i].q.phase.Resetting? && ws[i].q.phase.list != [] && ws[i].q.phase.list[0].id in ws[i].q.store
    ensures RoundIsRight(ws[i].q, ws[i + 1].q, ws[i].q.phase.list[0])
  {
    RunInvariant(steps, ws, i);
    RoundComesBack(ws[i], d, ws[i + 1]);
  }

  lemma RoundComesBack(w: World, d: Delay, w': World)
    requires Inv(w) && Next(w, ResetStep(d), w')
    ensures w.q.phase.Resetting? && w.q.phase.list != [] && w.q.phase.list[0].id in w.q.store
    ensures RoundIsRight(w.q, w'.q, w.q.phase.list[0])
  {
    PutBackIsRight(w.q, w.q.phase.list);
    ArmingMovesNothing(w.q, w.q.phase.list[0], d);
  }

  lemma ArmingMovesNothing(q: Queue, e: Entry, d: Delay)
    requires e.id in q.store
    ensures ResetNext(q, e, d).timers == PutBack(q, e).timers && ResetNext(q, e, d).store == PutBack(q, e).store
  {
  }

  /** Adding puts exactly the timer it is given into the set, under its expiration. */
  lemma AddIsRight(q: Queue, id: nat, timer: Timer, lag: nat)
    requires Sorted(q.timers)
    ensures var q' := AddTimerInLoop(q, id, timer, lag);
            && q'.store == q.store[id := timer] && q'.phase == q.phase && q'.reported == q.reported
            && forall x :: x in q'.timers <==> x == Entry(timer.expiration, id) || x in q.timers
  {
    InsertKeeps(q.timers, Entry(timer.expiration, id));
  }

  /** No other step changes a timer. */
  lemma TimersChangeOnly(w: World, step: Step)
    requires Enabled(w.q, step) && Defined(w, step) && !step.Add? && !step.ResetStep?
    ensures Advance(w, step).q.store == w.q.store
    ensures !step.ReadTimerfd? ==> Advance(w, step).q.timers == w.q.timers
  {
  }

  /** How far each step moves the clock. */
  lemma ClockMoves(w: World, step: Step)
    requires Enabled(w.q, step) && Defined(w, step)
    ensures var w' := Advance(w, step);
            w'.q.clock - w.q.clock ==
            match step
            case Tick(d) => d
            case Add(_, timer, lag) => if w.q.timers == [] || timer.expiration < w.q.timers[0].when then lag else 0
            case ResetStep(d) => d.pause + if w'.q.timers == [] then 0 else d.lag
            case _ => 0
  {
  }

  ghost predicate GivenOk(w: World) {
    forall id :: id in w.q.store ==> id in w.given && w.given[id] == w.q.store[id].interval
  }

  lemma StepKeepsGiven(w: World, step: Step)
    requires Inv(w) && GivenOk(w) && Enabled(w.q, step) && Defined(w, step)
    ensures GivenOk(Advance(w, step))
  {
    if step.ResetStep? {
      PutBackIsRight(w.q, w.q.phase.list);
    } else if !step.Add? {
      TimersChangeOnly(w, step);
    }
  }

  /** Over every run, a live timer has the interval it was added with. */
  lemma IntervalsAreKept(steps: seq<Step>, ws: seq<World>, n: nat)
    requires Runs.IsRun(START, Next, steps, ws) && n < |ws|
    ensures GivenOk(ws[n])
  {
    var inv := (w: World) => Inv(w) && GivenOk(w);
    forall w, step, w' | inv(w) && Next(w, step, w')
      ensures inv(w')
    {
      StepKeeps(w, step);
      StepKeepsGiven(w, step);
    }
    Runs.Invariant(START, Next, steps, ws, inv, n);
  }

  // ---------------------------------------------------------------- the alarm

  /** The one step that can leave a non-empty set without an alarm. */
  predicate Loses(w: World, step: Step) {
    step.ReadTimerfd? && w.q.phase.Reading? && LosesAlarm(w.q, w.q.phase.now)
  }

  /** An armed queue is armed after a step exactly when the step does not lose the alarm. */
  lemma ArmedUnlessLost(w: World, step: Step)
    requires Inv(w) && Enabled(w.q, step) && Armed(w.q)
    ensures Defined(w, step) && (Armed(Advance(w, step).q) <==> !Loses(w, step))
  {
    StepKeeps(w, step);
    if step.ReadTimerfd? {
      TakingKeepsAlarm(w.q, w.q.phase.now);
    } else if step.Add? {
      AddKeepsAlarm(w.q, step.id, step.timer, step.lag);
    }
  }

  /** A queue without its alarm stays so whatever happens, until a timer is added that is due before
      everything in the set: no firing, hence no callback, comes from the set itself. */
  lemma LostUntilEarlier(w: World, step: Step)
    requires Inv(w) && Enabled(w.q, step) && !Armed(w.q)
    ensures !step.Report? && !step.ReadClock? && !step.ReadTimerfd? && !step.RunNext? && !step.ResetStep?
    ensures Defined(w, step)
    ensures Armed(Advance(w, step).q) <==> step.Add? && step.timer.expiration < w.q.timers[0].when
  {
    if step.Add? {
      AddKeepsAlarm(w.q, step.id, step.timer, step.lag);
    }
  }

  /** Over every run, the queue is armed throughout exactly when no reading of the timerfd loses the
      alarm: something was due at the clock reading before it, or the set was empty, or the timerfd
      had not expired when it was read. */
  lemma ArmedIffNeverLost(steps: seq<Step>, ws: seq<World>)
    requires Runs.IsRun(START, Next, steps, ws)
    ensures (forall n :: 0 <= n < |ws| ==> Armed(ws[n].q)) <==> (forall i :: 0 <= i < |steps| ==> !Loses(ws[i], steps[i]))
  {
    if forall i :: 0 <= i < |steps| ==> !Loses(ws[i], steps[i]) {
      forall n | 0 <= n < |ws|
        ensures Armed(ws[n].q)
      {
        StaysArmed(steps, ws, n);
      }
    } else {
      var i :| 0 <= i < |steps| && Loses(ws[i], steps[i]);
      RunInvariant(steps, ws, i);
      TakingKeepsAlarm(ws[i].q, ws[i].q.phase.now);
      assert !Armed(ws[i + 1].q);
    }
  }

  lemma {:induction false} StaysArmed(steps: seq<Step>, ws: seq<World>, n: nat)
    requires Runs.IsRun(START, Next, steps, ws) && n < |ws|
    requires forall i :: 0 <= i < n ==> !Loses(ws[i], steps[i])
    ensures Armed(ws[n].q)
  {
    if n > 0 {
      StaysArmed(steps, ws, n - 1);
      RunInvariant(steps, ws, n - 1);
      ArmedUnlessLost(ws[n - 1], steps[n - 1]);
    }
  }

  // ---------------------------------------------------------------- firings

  /** When poll reports the timerfd, the set has a due entry exactly when it is not empty. */
  lemma ReportFindsDue(w: World)
    requires Inv(w) && Enabled(w.q, Report)
    ensures w.q.timers != [] <==> Split(w.q.timers, w.q.clock) > 0
  {
    NothingDueIff(w.q, w.q.clock);
  }

  /** In every run, a report over a non-empty set is answered by a non-empty batch, whatever was
      added in between and however long the handler takes, and does not lose the alarm. */
  lemma ReportIsAnswered(steps: seq<Step>, ws: seq<World>, i: nat)
    requires Runs.IsRun(START, Next, steps, ws) && i < |steps| && steps[i] == ReadTimerfd && ws[i].owed
    ensures ws[i + 1].q.phase.Running? && ws[i + 1].q.phase.batch != []
    ensures !Loses(ws[i], steps[i])
  {
    RunInvariant(steps, ws, i);
    assert Next(ws[i], steps[i], ws[i + 1]);
    NothingDueIff(ws[i].q, ws[i].q.phase.now);
  }

  /** The report being answered was made over a non-empty set. */
  predicate Answering(w: World) {
    w.q.reported || w.q.phase.Reading? ==> w.owed
  }

  lemma StepAnswersOnlyOwed(w: World, step: Step, w': World)
    requires Answering(w) && (w.q.reported ==> w.q.phase.Idle?)
    requires Next(w, step, w') && (step.Report? ==> w.q.timers != [])
    ensures Answering(w')
  {
  }

  lemma {:induction false} AnswersOnlyOwed(steps: seq<Step>, ws: seq<World>, n: nat)
    requires Runs.IsRun(START, Next, steps, ws) && n < |ws|
    requires forall i :: 0 <= i < |steps| && steps[i].Report? ==> ws[i].q.timers != []
    ensures Answering(ws[n])
  {
    if n > 0 {
      AnswersOnlyOwed(steps, ws, n - 1);
      RunInvariant(steps, ws, n - 1);
      StepAnswersOnlyOwed(ws[n - 1], steps[n - 1], ws[n]);
    }
  }

  /** So a run whose every report was made over a non-empty set is armed throughout: only a firing
      over an empty set opens the way to losing the alarm. */
  lemma ArmedIfReportsAreDue(steps: seq<Step>, ws: seq<World>, n: nat)
    requires Runs.IsRun(START, Next, steps, ws) && n < |ws|
    requires forall i :: 0 <= i < |steps| && steps[i].Report? ==> ws[i].q.timers != []
    ensures Armed(ws[n].q)
  {
    forall i | 0 <= i < |steps|
      ensures !Loses(ws[i], steps[i])
    {
      if steps[i].ReadTimerfd? {
        AnswersOnlyOwed(steps, ws, i);
        assert Next(ws[i], steps[i], ws[i + 1]);
        ReportIsAnswered(steps, ws, i);
      }
    }
    StaysArmed(steps, ws, n);
  }

  // ---------------------------------------------------------------- reachable worlds

  ghost predicate Reachable(w: World) {
    exists steps, ws :: Runs.IsRun(START, Next, steps, ws) && ws[|ws| - 1] == w
  }

  lemma StartIsReachable()
    ensures Reachable(START)
  {
    assert Runs.IsRun(START, Next, [], [START]);
  }

  lemma ReachableIsGood(w: World)
    requires Reachable(w)
    ensures Inv(w)
  {
    var steps, ws :| Runs.IsRun(START, Next, steps, ws) && ws[|ws| - 1] == w;
    RunInvariant(steps, ws, |ws| - 1);
  }

  /** Whatever is enabled in a reachable world is defined and leads to a reachable one. */
  lemma ReachNext(w: World, step: Step) returns (w': World)
    requires Reachable(w) && Enabled(w.q, step)
    ensures Defined(w, step) && w' == Advance(w, step) && Reachable(w')
  {
    ReachableIsGood(w);
    StepKeeps(w, step);
    w' := Advance(w, step);
    var steps, ws :| Runs.IsRun(START, Next, steps, ws) && ws[|ws| - 1] == w;
    Runs.Extend(START, Next, steps, ws, step, w');
    assert Runs.IsRun(START, Next, steps + [step], ws + [w']);
  }

  // ---------------------------------------------------------------- a firing over an empty set

  /** A handler adds a timer that is overdue between the report and handleRead: the timerfd is
      armed anew although the batch is about to take both timers. */
  lemma OverdueTimerRearms() returns (w: World)
    ensures Reachable(w)
    ensures w.q == Queue(100, [Entry(40, 2), Entry(50, 1)], map[1 := Timer(50, 0.0), 2 := Timer(40, 0.0)],
                         Some(Alarm(200, 100, 0)), true, Idle)
    ensures w.runs == map[1 := 0, 2 := 0]
  {
    StartIsReachable();
    w := ReachNext(START, Add(1, Timer(50, 0.0), 0));
    assert w.q.timers == [Entry(50, 1)];
    w := ReachNext(w, Tick(100));
    w := ReachNext(w, Report);
    w := ReachNext(w, Add(2, Timer(40, 0.0), 0));
  }

  lemma RunBoth(w0: World, a: Entry, b: Entry) returns (w: World)
    requires Reachable(w0) && w0.q.phase == Running([a, b], [a, b])
    requires w0.runs == map[1 := 0, 2 := 0] && a.id == 2 && b.id == 1
    ensures Reachable(w) && w.q == w0.q.(phase := Resetting([a, b], false)) && w.runs == map[1 := 1, 2 := 1]
  {
    w := ReachNext(w0, RunNext);
    assert w.q.phase == Running([b], [a, b]);
    w := ReachNext(w, RunNext);
    w := ReachNext(w, BeginReset);
  }

  lemma DeleteBoth(w0: World, a: Entry, b: Entry) returns (w: World)
    requires Reachable(w0) && w0.q.phase == Resetting([a, b], false) && w0.q.timers == []
    requires w0.runs == map[1 := 1, 2 := 1] && a.id == 2 && b.id == 1
    requires w0.q.store == map[1 := Timer(50, 0.0), 2 := Timer(40, 0.0)]
    ensures Reachable(w) && w.q == w0.q.(phase := Idle, store := map[]) && w.runs == map[]
  {
    w := ReachNext(w0, ResetStep(Delay(0, 0)));
    assert w.q.phase == Resetting([b], true);
    w := ReachNext(w, ResetStep(Delay(0, 0)));
    assert w.q.phase == Resetting([], true);
    w := ReachNext(w, EndReset);
  }

  /** A firing over an empty set can happen: that one batch empties the set, and nothing disarms
      the timerfd. */
  lemma SpuriousFiring() returns (w: World)
    ensures Reachable(w) && w.q == Queue(200, [], map[], Some(Alarm(200, 100, 0)), false, Idle) && w.runs == map[]
    ensures Enabled(w.q, Report)
  {
    var a, b := Entry(40, 2), Entry(50, 1);
    w := OverdueTimerRearms();
    w := ReachNext(w, ReadClock);
    SplitsAll([a, b], 100);
    w := ReachNext(w, ReadTimerfd);
    w := RunBoth(w, a, b);
    w := DeleteBoth(w, a, b);
    w := ReachNext(w, Tick(100));
  }

  /** And that firing can cost the next timer its alarm. A handler adds it before handleRead runs;
      its delay ends between handleRead's clock reading and its reading of the timerfd. Nothing was
      due at the former, so nothing is put back and nothing arms the timerfd again. */
  lemma AlarmIsLost() returns (w: World)
    ensures Reachable(w) && w.q.phase.Idle? && !Armed(w.q)
    ensures w.q.timers == [Entry(290, 3)] && w.q.clock == 310 && w.q.alarm == None
  {
    w := LateReading();
    assert w.q.timers[0..] == w.q.timers && w.q.timers[..0] == [];
    w := ReachNext(w, ReadTimerfd);
    w := EmptyBatch(w);
  }

  lemma EmptyBatch(w0: World) returns (w: World)
    requires Reachable(w0) && w0.q.phase == Running([], [])
    ensures Reachable(w) && w.q == w0.q.(phase := Idle)
  {
    w := ReachNext(w0, BeginReset);
    w := ReachNext(w, EndReset);
  }

  lemma LateReading() returns (w: World)
    ensures Reachable(w)
    ensures w.q == Queue(310, [Entry(290, 3)], map[3 := Timer(290, 0.0)], Some(Alarm(300, 200, 0)), false, Reading(250))
  {
    w := SpuriousFiring();
    w := ReachNext(w, Report);
    w := ReachNext(w, Add(3, Timer(290, 0.0), 0));
    w := ReachNext(w, Tick(50));
    w := ReachNext(w, ReadClock);
    w := ReachNext(w, Tick(60));
  }

  lemma {:induction false} SplitsAll(t: seq<Entry>, now: int)
    requires forall i :: 0 <= i < |t| ==> t[i].when < now
    ensures Split(t, now) == |t|
  {
    if t != [] {
      SplitsAll(t[1..], now);
    }
  }
}
