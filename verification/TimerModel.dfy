/** The timer set and its timerfd (src/timer/TimerQueue.cc, src/timer/Timer.cc,
    src/base/Timestamp.h), as the atomic steps of the loop thread. Times are microseconds of one
    clock that never goes back and drives both Timestamp::now and the timerfd. */
module TimerModel {
  import opened Options

  const MICROS_PER_SECOND: int := 1_000_000
  const MIN_DELAY: int := 100
  const UINTPTR_MAX: nat := 0xffff_ffff_ffff_ffff

  // ---------------------------------------------------------------- timestamps

  /** The cast of a floating-point count to an integer drops the fraction. */
  function Truncate(x: real): int {
    if x >= 0.0 then x.Floor else -((-x).Floor)
  }

  function AddTime(t: int, seconds: real): int {
    t + Truncate(seconds * MICROS_PER_SECOND as real)
  }

  /** The result is less than a microsecond from the exact sum, on the side of the start. */
  lemma AddTimeIsExact(t: int, seconds: real)
    ensures var d := (AddTime(t, seconds) - t) as real;
            if seconds >= 0.0 then 0.0 <= d && d <= seconds * 1_000_000.0 < d + 1.0
            else d <= 0.0 && d - 1.0 < seconds * 1_000_000.0 <= d
  {
  }

  /** A timespec for a delay in microseconds. */
  function Timespec(micros: int): (int, int) {
    (micros / MICROS_PER_SECOND, micros % MICROS_PER_SECOND * 1000)
  }

  /** The microseconds of a timespec. */
  function Micros(ts: (int, int)): int {
    ts.0 * MICROS_PER_SECOND + ts.1 / 1000
  }

  /** The delay handed to the kernel is at least 100 microseconds; its split into seconds and
      nanoseconds is exact, in range, and never the zero that would disarm the timer. */
  lemma TimespecIsExact(delay: int)
    requires delay >= MIN_DELAY
    ensures var (sec, nsec) := Timespec(delay);
            && sec * 1_000_000_000 + nsec == delay * 1000
            && sec >= 0 && 0 <= nsec < 1_000_000_000
            && (sec, nsec) != (0, 0)
            && Micros((sec, nsec)) == delay
  {
  }

  // ---------------------------------------------------------------- the ordered set

  /** A timer: `repeat` is `interval > 0`. */
  datatype Timer = Timer(expiration: int, interval: real)

  predicate Repeats(t: Timer) {
    t.interval > 0.0
  }

  /** A set entry: the key and the timer's address. */
  datatype Entry = Entry(when: int, id: nat)

  predicate Less(a: Entry, b: Entry) {
    a.when < b.when || (a.when == b.when && a.id < b.id)
  }

  ghost predicate Sorted(t: seq<Entry>) {
    forall i, j :: 0 <= i < j < |t| ==> Less(t[i], t[j])
  }

  function Insert(t: seq<Entry>, e: Entry): seq<Entry> {
    if t == [] || Less(e, t[0]) then [e] + t
    else if e == t[0] then t
    else [t[0]] + Insert(t[1..], e)
  }

  /** lower_bound of (now, UINTPTR_MAX): the first entry that does not precede it. */
  function Split(t: seq<Entry>, now: int): (k: nat)
    ensures k <= |t|
    ensures forall i :: 0 <= i < k ==> Less(t[i], Entry(now, UINTPTR_MAX))
    ensures k < |t| ==> !Less(t[k], Entry(now, UINTPTR_MAX))
  {
    if t == [] || !Less(t[0], Entry(now, UINTPTR_MAX)) then 0 else 1 + Split(t[1..], now)
  }

  lemma {:induction false} InsertKeeps(t: seq<Entry>, e: Entry)
    requires Sorted(t)
    ensures Sorted(Insert(t, e))
    ensures forall x :: x in Insert(t, e) <==> x == e || x in t
    ensures Insert(t, e) != [] && Insert(t, e)[0] == if t == [] || Less(e, t[0]) then e else t[0]
  {
    if t == [] || Less(e, t[0]) {
    } else if e == t[0] {
    } else {
      InsertKeeps(t[1..], e);
      var r := Insert(t[1..], e);
      forall i | 0 <= i < |r|
        ensures Less(t[0], r[i])
      {
        assert r[i] in r;
      }
      assert forall x :: x in t <==> x == t[0] || x in t[1..];
    }
  }

  /** getExpired splits the set exactly at `now`: everything due, in order, and nothing else. */
  lemma SplitIsExact(t: seq<Entry>, now: int)
    requires Sorted(t) && forall i :: 0 <= i < |t| ==> t[i].id < UINTPTR_MAX
    ensures var k := Split(t, now);
            && t == t[..k] + t[k..]
            && (forall i :: 0 <= i < k ==> t[i].when <= now)
            && (forall i :: k <= i < |t| ==> now < t[i].when)
  {
    var k := Split(t, now);
    forall i | k <= i < |t|
      ensures now < t[i].when
    {
      NotDue(t[k], now);
      if i > k {
        assert Less(t[k], t[i]);
      }
    }
  }

  /** No timer has the highest address, so the sentry is behind everything due at its time. */
  lemma NotDue(e: Entry, now: int)
    requires e.id < UINTPTR_MAX && !Less(e, Entry(now, UINTPTR_MAX))
    ensures now < e.when
  {
  }

  // ---------------------------------------------------------------- the queue and its steps

  /** The timerfd: when it expires, the clock reading the delay was computed from, and the time
      that passed between that reading and timerfd_settime. */
  datatype Alarm = Alarm(deadline: int, readAt: int, lag: nat)

  /** Between handlers; in handleRead after its clock reading `now`; running the callbacks of a
      batch, `todo` of them still to come; or putting the batch back, `list` of it still to come
      and `done` once one entry has been treated. */
  datatype Phase =
    | Idle
    | Reading(now: int)
    | Running(todo: seq<Entry>, batch: seq<Entry>)
    | Resetting(list: seq<Entry>, done: bool)

  /** `reported`: poll has returned the timerfd as readable and its handler has yet to run. */
  datatype Queue = Queue(
    clock: int,
    timers: seq<Entry>,
    store: map<nat, Timer>,
    alarm: Option<Alarm>,
    reported: bool,
    phase: Phase)

  function Max(a: int, b: int): int {
    if a < b then b else a
  }

  /** timerfd_settime, `lag` after the clock reading: the delay starts to run now, and a zero delay
      disarms the timer. */
  function SetTimerfd(q: Queue, delay: (int, int), lag: nat): Queue {
    q.(clock := q.clock + lag,
       alarm := if delay == (0, 0) then None else Some(Alarm(q.clock + lag + Micros(delay), q.clock, lag)))
  }

  /** resetTimerfd: the delay is at least 100 microseconds. */
  function Arm(q: Queue, expiration: int, lag: nat): Queue {
    SetTimerfd(q, Timespec(Max(expiration - q.clock, MIN_DELAY)), lag)
  }

  /** So the timerfd is armed, for the expiration or 100 microseconds from the clock reading. */
  lemma ArmIsExact(q: Queue, expiration: int, lag: nat)
    ensures Arm(q, expiration, lag) ==
            q.(clock := q.clock + lag,
               alarm := Some(Alarm(Max(expiration, q.clock + MIN_DELAY) + lag, q.clock, lag)))
  {
    TimespecIsExact(Max(expiration - q.clock, MIN_DELAY));
  }

  /** `lag` passes only if the timerfd is set. */
  function AddTimerInLoop(q: Queue, id: nat, timer: Timer, lag: nat): Queue {
    var e := Entry(timer.expiration, id);
    var earliestChanged := q.timers == [] || timer.expiration < q.timers[0].when;
    var q' := q.(timers := Insert(q.timers, e), store := q.store[id := timer]);
    if earliestChanged then Arm(q', timer.expiration, lag) else q'
  }

  /** Whether reading the timerfd at the present time finds it expired, which clears it. */
  predicate Expired(q: Queue) {
    q.alarm.Some? && q.alarm.value.deadline <= q.clock
  }

  /** The second half of handleRead's preamble: the timerfd is read at the present time, and the
      entries due at the earlier reading `now` are taken out. */
  function TakeExpired(q: Queue, now: int): Queue {
    var k := Split(q.timers, now);
    q.(timers := q.timers[k..],
       alarm := if Expired(q) then None else q.alarm,
       phase := Running(q.timers[..k], q.timers[..k]))
  }

  /** Reading a timer's expiration through its pointer; 0 stands for a timer that is gone. */
  function ExpirationOf(store: map<nat, Timer>, id: nat): int {
    if id in store then store[id].expiration else 0
  }

  function Restarted(q: Queue, t: Timer): Timer {
    t.(expiration := AddTime(q.clock, t.interval))
  }

  /** Rearming at the earliest entry, if there is one. */
  function ArmEarliest(q: Queue, lag: nat): Queue {
    if q.timers == [] then q else Arm(q, ExpirationOf(q.store, q.timers[0].id), lag)
  }

  /** The times that pass in a round of reset: before the clock is read for arming, and from there
      to timerfd_settime. */
  datatype Delay = Delay(pause: nat, lag: nat)

  /** Restarting or deleting one timer of a batch. */
  function PutBack(q: Queue, e: Entry): Queue
    requires e.id in q.store
  {
    var t := q.store[e.id];
    if Repeats(t) then
      q.(store := q.store[e.id := Restarted(q, t)],
         timers := Insert(q.timers, Entry(Restarted(q, t).expiration, e.id)))
    else
      q.(store := q.store - {e.id})
  }

  /** One round of reset's loop. */
  function ResetNext(q: Queue, e: Entry, d: Delay): Queue
    requires e.id in q.store
  {
    var q' := PutBack(q, e);
    ArmEarliest(q'.(clock := q'.clock + d.pause), d.lag)
  }

  datatype Step =
    | Tick(d: nat)
    | Report
    | Add(id: nat, timer: Timer, lag: nat)
    | ReadClock
    | ReadTimerfd
    | RunNext
    | BeginReset
    | ResetStep(delay: Delay)
    | EndReset

  /** poll reports the timerfd once before its handler runs. Timers are added by other handlers and
      by the callbacks of a batch. */
  predicate Enabled(q: Queue, step: Step) {
    match step
    case Tick(_) => true
    case Report => q.phase.Idle? && !q.reported && Expired(q)
    case Add(id, _, _) => MayAdd(q.phase) && id !in q.store && id < UINTPTR_MAX
    case ReadClock => q.phase.Idle? && q.reported
    case ReadTimerfd => q.phase.Reading?
    case RunNext => q.phase.Running? && q.phase.todo != []
    case BeginReset => q.phase.Running? && q.phase.todo == []
    case ResetStep(_) => q.phase.Resetting? && q.phase.list != []
    case EndReset => q.phase.Resetting? && q.phase.list == []
  }

  predicate MayAdd(phase: Phase) {
    phase.Idle? || (phase.Running? && |phase.todo| < |phase.batch|)
  }

  /** The queue and what a client can count: how often each live timer has run, the time and due
      time of every callback, the run counts of the timers deleted so far, whether the set held a
      timer when the report being answered was made, and the interval each live timer was added
      with. */
  datatype World = World(
    q: Queue, runs: map<nat, nat>, log: seq<(int, int)>, deleted: seq<nat>, owed: bool, given: map<nat, real>)

  const START := World(Queue(0, [], map[], None, false, Idle), map[], [], [], false, map[])

  /** What the loop needs not to touch a deleted timer. */
  predicate Defined(w: World, step: Step) {
    match step
    case ReadTimerfd => w.q.phase.Reading?
    case RunNext => w.q.phase.Running? && w.q.phase.todo != [] && w.q.phase.todo[0].id in w.runs
    case ResetStep(_) =>
      && w.q.phase.Resetting? && w.q.phase.list != []
      && w.q.phase.list[0].id in w.q.store && w.q.phase.list[0].id in w.runs
    case BeginReset => w.q.phase.Running?
    case _ => true
  }

  function Advance(w: World, step: Step): World
    requires Defined(w, step)
  {
    var q := w.q;
    match step
    case Tick(d) => w.(q := q.(clock := q.clock + d))
    case Report => w.(q := q.(reported := true), owed := q.timers != [])
    case Add(id, timer, lag) =>
      w.(q := AddTimerInLoop(q, id, timer, lag), runs := w.runs[id := 0], given := w.given[id := timer.interval])
    case ReadClock => w.(q := q.(reported := false, phase := Reading(q.clock)))
    case ReadTimerfd => w.(q := TakeExpired(q, q.phase.now), owed := false)
    case RunNext =>
      var e := q.phase.todo[0];
      w.(q := q.(phase := Running(q.phase.todo[1..], q.phase.batch)),
         runs := w.runs[e.id := w.runs[e.id] + 1],
         log := w.log + [(q.clock, e.when)])
    case BeginReset => w.(q := q.(phase := Resetting(q.phase.batch, false)))
    case ResetStep(delay) =>
      var e := q.phase.list[0];
      var q' := ResetNext(q, e, delay).(phase := Resetting(q.phase.list[1..], true));
      if Repeats(q.store[e.id]) then w.(q := q')
      else w.(q := q', runs := w.runs - {e.id}, deleted := w.deleted + [w.runs[e.id]])
    case EndReset => w.(q := q.(phase := Idle))
  }

  predicate Next(w: World, step: Step, w': World) {
    Enabled(w.q, step) && Defined(w, step) && w' == Advance(w, step)
  }
}
