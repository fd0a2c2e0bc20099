/** The functor queue of an event loop and its eventfd wakeup (src/net/EventLoop.cc), as the
    atomic steps of the loop thread and of any number of producer threads. */
module EventLoopModel {
  import Runs

  /** A functor is what it queues when it runs on the loop thread. */
  datatype Functor = Functor(id: nat, queues: seq<Functor>)
  type Thread = nat

  const EVENTFD_MAX: nat := 0xffff_ffff_ffff_fffe

  /** Where the loop thread is: outside loop(), blocked in or about to enter poll, in channel
      handlers, in doPendingFunctors before its swap, or running the functors it swapped out. */
  datatype Place = Outside | Polling | Handling | Swapping | Running

  datatype Loop = Loop(
    place: Place,
    calling: bool,
    pending: seq<Functor>, draining: seq<Functor>, executed: seq<Functor>,
    counter: nat,
    waking: set<Thread>,   // producers that have queued and not yet called wakeup
    selfWaking: bool)      // the loop thread itself between queueing and wakeup

  const START := Loop(Outside, false, [], [], [], 0, {}, false)

  datatype Step =
    | Produce(t: Thread, f: Functor)   // queueInLoop on another thread, up to the unlock
    | Wake(t: Thread)                  // that thread's wakeup
    | QueueInLoop(f: Functor)          // queueInLoop on the loop thread, up to the unlock
    | SelfWake
    | EnterLoop
    | PollReturns
    | ReadEventFd
    | BeginDrain
    | SwapPending
    | RunNext
    | EndDrain(quit: bool)

  /** An eventfd write of one; a full counter refuses it. */
  function Bump(counter: nat): nat {
    if counter >= EVENTFD_MAX then counter else counter + 1
  }

  predicate Enabled(s: Loop, step: Step) {
    match step
    case Produce(t, _) => t !in s.waking
    case Wake(t) => t in s.waking
    case QueueInLoop(_) => !s.selfWaking && (s.place.Outside? || s.place.Handling? || s.place.Running?)
    case SelfWake => s.selfWaking
    case EnterLoop => !s.selfWaking && s.place.Outside?
    case PollReturns => s.place.Polling?
    case ReadEventFd => !s.selfWaking && s.place.Handling?
    case BeginDrain => !s.selfWaking && s.place.Handling?
    case SwapPending => s.place.Swapping?
    case RunNext => !s.selfWaking && s.place.Running? && s.draining != []
    case EndDrain(_) => !s.selfWaking && s.place.Running? && s.draining == []
  }

  function Apply(s: Loop, step: Step): Loop
    requires Enabled(s, step)
  {
    match step
    case Produce(t, f) => s.(pending := s.pending + [f], waking := s.waking + {t})
    case Wake(t) => s.(waking := s.waking - {t}, counter := Bump(s.counter))
    case QueueInLoop(f) => s.(pending := s.pending + [f], selfWaking := s.calling)
    case SelfWake => s.(selfWaking := false, counter := Bump(s.counter))
    case EnterLoop => s.(place := Polling)
    case PollReturns => s.(place := Handling)
    case ReadEventFd => s.(counter := 0)
    case BeginDrain => s.(place := Swapping, calling := true)
    case SwapPending => s.(place := Running, draining := s.pending, pending := [])
    case RunNext => s.(executed := s.executed + [s.draining[0]], draining := s.draining[1..])
    case EndDrain(quit) => s.(place := if quit then Outside else Polling, calling := false)
  }

  /** The loop, everything queued so far, in lock order, and the wakeups since the eventfd was last
      read. */
  datatype World = World(loop: Loop, queued: seq<Functor>, wakeups: nat)

  function Advance(w: World, step: Step): World
    requires Enabled(w.loop, step)
  {
    World(Apply(w.loop, step),
          match step
          case Produce(_, f) => w.queued + [f]
          case QueueInLoop(f) => w.queued + [f]
          case _ => w.queued,
          match step
          case Wake(_) => w.wakeups + 1
          case SelfWake => w.wakeups + 1
          case ReadEventFd => 0
          case _ => w.wakeups)
  }

  predicate Next(w: World, step: Step, w': World) {
    Enabled(w.loop, step) && w' == Advance(w, step)
  }

  const BEGIN := World(START, [], 0)

  // ---------------------------------------------------------------- order

  predicate InOrder(w: World) {
    && w.loop.executed + w.loop.draining + w.loop.pending == w.queued
    && (w.loop.draining != [] ==> w.loop.place.Running?)
  }

  lemma StepKeepsOrder(w: World, step: Step)
    requires InOrder(w) && Enabled(w.loop, step)
    ensures InOrder(Advance(w, step))
  {
    var s := w.loop;
    match step
    case Produce(_, f) => assert s.executed + s.draining + (s.pending + [f]) == w.queued + [f];
    case QueueInLoop(f) => assert s.executed + s.draining + (s.pending + [f]) == w.queued + [f];
    case SwapPending => assert s.executed + s.pending + [] == s.executed + [] + s.pending;
    case RunNext => assert s.executed + [s.draining[0]] + s.draining[1..] == s.executed + s.draining;
    case _ =>
  }

  /** For every interleaving, the functors executed, then those being drained, then those pending
      are the functors queued, in lock order: none lost, repeated or reordered. */
  lemma RunsInQueueOrder(steps: seq<Step>, ws: seq<World>, n: nat)
    requires Runs.IsRun(BEGIN, Next, steps, ws) && n < |ws|
    ensures InOrder(ws[n])
  {
    forall w, step, w' | InOrder(w) && Next(w, step, w')
      ensures InOrder(w')
    {
      StepKeepsOrder(w, step);
    }
    Runs.Invariant(BEGIN, Next, steps, ws, InOrder, n);
  }

  // ---------------------------------------------------------------- wakeup

  /** Something will make poll return: a positive counter, or a wakeup about to be written. */
  predicate Signalled(s: Loop) {
    s.counter > 0 || s.waking != {} || s.selfWaking
  }

  /** The loop sits in poll with work queued and nothing to end the wait but the timeout. */
  predicate Stranded(s: Loop) {
    s.place.Polling? && s.pending != [] && !Signalled(s)
  }

  predicate WakeInv(s: Loop) {
    && (s.calling <==> s.place.Swapping? || s.place.Running?)
    && (s.selfWaking ==> s.place.Running?)
    && (s.place.Running? && s.pending != [] ==> Signalled(s))
  }

  lemma StepKeepsWake(s: Loop, step: Step)
    requires WakeInv(s) && Enabled(s, step)
    ensures WakeInv(Apply(s, step))
    // The exact moment at which work gets stranded: entering loop() over work that the loop
    // thread queued for itself beforehand, which no wakeup announces.
    ensures Stranded(Apply(s, step)) && !Stranded(s) <==> step.EnterLoop? && s.pending != [] && !Signalled(s)
  {
  }

  /** The eventfd counts the wakeups since it was read, as far as it can count. */
  predicate Counts(w: World) {
    w.loop.counter == if w.wakeups < 0xffff_ffff_ffff_fffe then w.wakeups else 0xffff_ffff_ffff_fffe
  }

  /** Over every run, so poll is ready for the eventfd exactly while a wakeup is unread. */
  lemma CountsWakeups(steps: seq<Step>, ws: seq<World>, n: nat)
    requires Runs.IsRun(BEGIN, Next, steps, ws) && n < |ws|
    ensures Counts(ws[n]) && (ws[n].loop.counter > 0 <==> ws[n].wakeups > 0)
  {
    forall w, step, w' | Counts(w) && Next(w, step, w')
      ensures Counts(w')
    {
    }
    Runs.Invariant(BEGIN, Next, steps, ws, Counts, n);
  }

  /** Where the loop thread goes: in and out of loop(), and round poll, handlers and drain. */
  lemma PlaceFollows(s: Loop, step: Step)
    requires Enabled(s, step)
    ensures Apply(s, step).place ==
            match step
            case EnterLoop => Polling
            case PollReturns => Handling
            case BeginDrain => Swapping
            case SwapPending => Running
            case EndDrain(quit) => if quit then Outside else Polling
            case _ => s.place
  {
  }

  /** A thread is on its way to wakeup() from its queueing until its write. */
  lemma WakersFollow(s: Loop, step: Step)
    requires Enabled(s, step)
    ensures Apply(s, step).waking ==
            match step case Produce(t, _) => s.waking + {t} case Wake(t) => s.waking - {t} case _ => s.waking
    ensures Apply(s, step).selfWaking <==> (step.QueueInLoop? && s.calling) || (s.selfWaking && !step.SelfWake? && !step.QueueInLoop?)
  {
  }

  lemma RunKeepsWake(steps: seq<Step>, ws: seq<World>, n: nat)
    requires Runs.IsRun(BEGIN, Next, steps, ws) && n < |ws|
    ensures WakeInv(ws[n].loop)
  {
    var inv := (w: World) => WakeInv(w.loop);
    forall w, step, w' | inv(w) && Next(w, step, w')
      ensures inv(w')
    {
      StepKeepsWake(w.loop, step);
    }
    Runs.Invariant(BEGIN, Next, steps, ws, inv, n);
  }

  /** The loop thread queued nothing for itself outside loop() in the first n steps. */
  predicate NoEarlyQueue(steps: seq<Step>, ws: seq<World>, n: nat)
    requires n <= |steps| < |ws|
  {
    forall i {:trigger steps[i]} :: 0 <= i < n && steps[i].QueueInLoop? ==> !ws[i].loop.place.Outside?
  }

  lemma {:induction false} OutsideIsSignalled(steps: seq<Step>, ws: seq<World>, n: nat)
    requires Runs.IsRun(BEGIN, Next, steps, ws) && n < |ws| && NoEarlyQueue(steps, ws, n)
    ensures ws[n].loop.place.Outside? || ws[n].loop.place.Polling? ==> ws[n].loop.pending == [] || Signalled(ws[n].loop)
  {
    if n > 0 {
      OutsideIsSignalled(steps, ws, n - 1);
      RunKeepsWake(steps, ws, n - 1);
      assert Next(ws[n - 1], steps[n - 1], ws[n]);
    }
  }

  /** Unless the loop thread queues for itself before entering loop(), the running loop never
      waits in poll with a functor pending while no wakeup is written or on its way. */
  lemma NeverStranded(steps: seq<Step>, ws: seq<World>, n: nat)
    requires Runs.IsRun(BEGIN, Next, steps, ws) && n < |ws| && NoEarlyQueue(steps, ws, n)
    ensures !Stranded(ws[n].loop)
  {
    OutsideIsSignalled(steps, ws, n);
  }

  /** Entering loop() over work that nothing announces. */
  predicate EntersUnannounced(s: Loop, step: Step) {
    step.EnterLoop? && s.pending != [] && !Signalled(s)
  }

  /** Over every run, work is never stranded in poll exactly when loop() is never entered over work
      that nothing announces. */
  lemma NeverStrandedIff(steps: seq<Step>, ws: seq<World>)
    requires Runs.IsRun(BEGIN, Next, steps, ws)
    ensures (forall n :: 0 <= n < |ws| ==> !Stranded(ws[n].loop)) <==>
              (forall i :: 0 <= i < |steps| ==> !EntersUnannounced(ws[i].loop, steps[i]))
  {
    if forall i :: 0 <= i < |steps| ==> !EntersUnannounced(ws[i].loop, steps[i]) {
      forall n | 0 <= n < |ws|
        ensures !Stranded(ws[n].loop)
      {
        StaysAnnounced(steps, ws, n);
      }
    } else {
      var i :| 0 <= i < |steps| && EntersUnannounced(ws[i].loop, steps[i]);
      assert Next(ws[i], steps[i], ws[i + 1]);
      assert Stranded(ws[i + 1].loop);
    }
  }

  lemma {:induction false} StaysAnnounced(steps: seq<Step>, ws: seq<World>, n: nat)
    requires Runs.IsRun(BEGIN, Next, steps, ws) && n < |ws|
    requires forall i :: 0 <= i < n ==> !EntersUnannounced(ws[i].loop, steps[i])
    ensures !Stranded(ws[n].loop)
  {
    if n > 0 {
      StaysAnnounced(steps, ws, n - 1);
      RunKeepsWake(steps, ws, n - 1);
      assert Next(ws[n - 1], steps[n - 1], ws[n]);
      StepKeepsWake(ws[n - 1].loop, steps[n - 1]);
    }
  }

  /** The condition is needed: queueing before loop() leaves the functor to the poll timeout. */
  lemma EarlyQueueStrands(f: Functor) returns (steps: seq<Step>, ws: seq<World>)
    ensures Runs.IsRun(BEGIN, Next, steps, ws) && Stranded(ws[|ws| - 1].loop) && ws[|ws| - 1].queued == [f]
  {
    steps := [QueueInLoop(f), EnterLoop];
    var w0 := BEGIN;
    var w1 := Advance(w0, QueueInLoop(f));
    var w2 := Advance(w1, EnterLoop);
    ws := [w0, w1, w2];
    assert Next(w0, steps[0], w1) && Next(w1, steps[1], w2);
  }

  // ---------------------------------------------------------------- reachable worlds

  ghost predicate Reachable(w: World) {
    exists steps, ws :: Runs.IsRun(BEGIN, Next, steps, ws) && ws[|ws| - 1] == w
  }

  lemma BeginIsReachable()
    ensures Reachable(BEGIN)
  {
    assert Runs.IsRun(BEGIN, Next, [], [BEGIN]);
  }

  lemma ReachNext(w: World, step: Step) returns (w': World)
    requires Reachable(w) && Enabled(w.loop, step)
    ensures Reachable(w') && w' == Advance(w, step)
  {
    w' := Advance(w, step);
    var steps, ws :| Runs.IsRun(BEGIN, Next, steps, ws) && ws[|ws| - 1] == w;
    Runs.Extend(BEGIN, Next, steps, ws, step, w');
    assert Runs.IsRun(BEGIN, Next, steps + [step], ws + [w']);
  }

  lemma ReachableIsGood(w: World)
    requires Reachable(w)
    ensures InOrder(w) && WakeInv(w.loop)
  {
    var steps, ws :| Runs.IsRun(BEGIN, Next, steps, ws) && ws[|ws| - 1] == w;
    RunsInQueueOrder(steps, ws, |ws| - 1);
    RunKeepsWake(steps, ws, |ws| - 1);
  }
}

/** The loop as the source has it. Its methods take the steps of the model: the ghost world is
    always one that a run of the model reaches. */
module EventLoopObject {
  import opened EventLoopModel

  /** What is pending after a batch has run: for each functor in turn, what it queues and what other
      threads queue before the next one runs. */
  function LeftBy(functors: seq<Functor>, meanwhile: nat -> seq<Functor>): seq<Functor> {
    if functors == [] then []
    else
      var n := |functors| - 1;
      LeftBy(functors[..n], meanwhile) + functors[n].queues + meanwhile(n)
  }

  lemma PrefixGrows(functors: seq<Functor>, meanwhile: nat -> seq<Functor>, i: nat)
    requires i < |functors|
    ensures functors[..i + 1] == functors[..i] + [functors[i]]
    ensures LeftBy(functors[..i + 1], meanwhile) == LeftBy(functors[..i], meanwhile) + functors[i].queues + meanwhile(i)
    ensures functors[i..][0] == functors[i] && functors[i..][1..] == functors[i + 1..]
  {
    assert functors[..i + 1][..i] == functors[..i];
  }

  class EventLoop {
    var pendingFunctors: seq<Functor>
    var callingPendingFunctors: bool
    var wakeupCounter: nat
    ghost var w: World

    ghost predicate Valid()
      reads this
    {
      && w.loop.pending == pendingFunctors
      && w.loop.calling == callingPendingFunctors
      && w.loop.counter == wakeupCounter
      && !w.loop.selfWaking
      && Reachable(w)
    }

    constructor ()
      ensures Valid() && w == BEGIN
    {
      pendingFunctors, callingPendingFunctors, wakeupCounter := [], false, 0;
      w := BEGIN;
      BeginIsReachable();
    }

    /** An eventfd write of one. */
    method Wakeup()
      modifies this`wakeupCounter
      ensures wakeupCounter == Bump(old(wakeupCounter))
    {
      if wakeupCounter < EVENTFD_MAX {
        wakeupCounter := wakeupCounter + 1;
      }
    }

    /** queueInLoop on another thread: its two steps in a row. */
    method QueueFromThread(t: Thread, f: Functor)
      requires Valid() && t !in w.loop.waking
      modifies this`pendingFunctors, this`wakeupCounter, this`w
      ensures Valid()
      ensures w == Advance(Advance(old(w), Produce(t, f)), Wake(t))
    {
      w := ReachNext(w, Produce(t, f));
      pendingFunctors := pendingFunctors + [f];
      w := ReachNext(w, Wake(t));
      Wakeup();
    }

    /** queueInLoop on the loop thread: a wakeup follows only while a batch is being run. */
    method QueueInLoop(f: Functor)
      requires Valid() && Enabled(w.loop, Step.QueueInLoop(f))
      modifies this`pendingFunctors, this`wakeupCounter, this`w
      ensures Valid()
      ensures w == if callingPendingFunctors then Advance(Advance(old(w), Step.QueueInLoop(f)), SelfWake)
                   else Advance(old(w), Step.QueueInLoop(f))
    {
      w := ReachNext(w, Step.QueueInLoop(f));
      pendingFunctors := pendingFunctors + [f];
      if callingPendingFunctors {
        w := ReachNext(w, SelfWake);
        Wakeup();
      }
    }

    method HandleRead()
      requires Valid() && w.loop.place.Handling?
      modifies this`wakeupCounter, this`w
      ensures Valid() && w == Advance(old(w), ReadEventFd)
    {
      w := ReachNext(w, ReadEventFd);
      wakeupCounter := 0;
    }

    /** What a functor or a handler queues while it runs. */
    method QueueAll(functors: seq<Functor>)
      requires Valid() && (w.loop.place.Handling? || w.loop.place.Running?)
      modifies this`pendingFunctors, this`wakeupCounter, this`w
      ensures Valid() && w.loop == old(w).loop.(pending := pendingFunctors, counter := wakeupCounter)
      ensures pendingFunctors == old(pendingFunctors) + functors
      ensures old(wakeupCounter) > 0 || (callingPendingFunctors && functors != []) ==> wakeupCounter > 0
    {
      for i := 0 to |functors|
        invariant Valid() && w.loop == old(w).loop.(pending := pendingFunctors, counter := wakeupCounter)
        invariant pendingFunctors == old(pendingFunctors) + functors[..i]
        invariant old(wakeupCounter) > 0 || (callingPendingFunctors && i > 0) ==> wakeupCounter > 0
      {
        QueueInLoop(functors[i]);
      }
    }

    /** What another thread queues. */
    method QueueAllFromThread(t: Thread, functors: seq<Functor>)
      requires Valid() && t !in w.loop.waking
      modifies this`pendingFunctors, this`wakeupCounter, this`w
      ensures Valid() && w.loop == old(w).loop.(pending := pendingFunctors, counter := wakeupCounter)
      ensures pendingFunctors == old(pendingFunctors) + functors
      ensures old(wakeupCounter) > 0 || functors != [] ==> wakeupCounter > 0
    {
      for i := 0 to |functors|
        invariant Valid() && w.loop == old(w).loop.(pending := pendingFunctors, counter := wakeupCounter)
        invariant pendingFunctors == old(pendingFunctors) + functors[..i]
        invariant old(wakeupCounter) > 0 || i > 0 ==> wakeupCounter > 0
      {
        QueueFromThread(t, functors[i]);
      }
    }

    method RunFunctor(f: Functor)
      requires Valid() && w.loop.place.Running? && w.loop.draining != [] && w.loop.draining[0] == f
      modifies this`pendingFunctors, this`wakeupCounter, this`w
      ensures Valid() && w.loop.place.Running? && w.loop.draining == old(w).loop.draining[1..]
      ensures w.loop.executed == old(w).loop.executed + [f] && w.loop.waking == old(w).loop.waking
      ensures pendingFunctors == old(pendingFunctors) + f.queues
      ensures old(wakeupCounter) > 0 || f.queues != [] ==> wakeupCounter > 0
    {
      ReachableIsGood(w);
      w := ReachNext(w, RunNext);
      QueueAll(f.queues);
    }

    /** Runs exactly the batch that was pending, in order. What the batch and other threads queue
        meanwhile is left for the next round, and then the eventfd is readable, so the next poll does
        not block. */
    method DoPendingFunctors(t: Thread, meanwhile: nat -> seq<Functor>, quit: bool)
      requires Valid() && w.loop.place.Handling? && t !in w.loop.waking
      modifies this
      ensures Valid() && w.loop.place == (if quit then Outside else Polling) && w.loop.waking == old(w).loop.waking
      ensures w.loop.executed == old(w).loop.executed + old(pendingFunctors)
      ensures pendingFunctors == LeftBy(old(pendingFunctors), meanwhile)
      ensures pendingFunctors != [] ==> wakeupCounter > 0
    {
      w := ReachNext(w, BeginDrain);
      callingPendingFunctors := true;
      w := ReachNext(w, SwapPending);
      var functors := pendingFunctors;
      pendingFunctors := [];
      RunAll(functors, t, meanwhile);
      w := ReachNext(w, EndDrain(quit));
      callingPendingFunctors := false;
    }

    method RunAll(functors: seq<Functor>, t: Thread, meanwhile: nat -> seq<Functor>)
      requires Valid() && w.loop.place.Running? && w.loop.draining == functors && pendingFunctors == []
      requires t !in w.loop.waking
      modifies this`pendingFunctors, this`wakeupCounter, this`w
      ensures Valid() && w.loop.place.Running? && w.loop.draining == [] && w.loop.waking == old(w).loop.waking
      ensures w.loop.executed == old(w).loop.executed + functors
      ensures pendingFunctors == LeftBy(functors, meanwhile)
      ensures pendingFunctors != [] ==> wakeupCounter > 0
    {
      for i := 0 to |functors|
        invariant Valid() && w.loop.place.Running? && w.loop.draining == functors[i..]
        invariant w.loop.waking == old(w).loop.waking
        invariant w.loop.executed == old(w).loop.executed + functors[..i]
        invariant pendingFunctors == LeftBy(functors[..i], meanwhile)
        invariant pendingFunctors != [] ==> wakeupCounter > 0
      {
        PrefixGrows(functors, meanwhile, i);
        RunFunctor(functors[i]);
        QueueAllFromThread(t, meanwhile(i));
      }
      assert functors[..|functors|] == functors;
    }

    method Enter()
      requires Valid() && w.loop.place.Outside?
      modifies this`w
      ensures Valid() && w == Advance(old(w), EnterLoop)
    {
      w := ReachNext(w, EnterLoop);
    }

    /** A turn of loop(): poll returns, the eventfd is read if it was reported, the handlers queue
        what they queue, and the pending functors run. Thread t queues `arriving` before the swap,
        and more while the batch runs. */
    method Turn(reported: bool, handlers: seq<Functor>, t: Thread, arriving: seq<Functor>,
                meanwhile: nat -> seq<Functor>, quit: bool)
      requires Valid() && w.loop.place.Polling? && t !in w.loop.waking
      modifies this
      ensures Valid() && w.loop.place == (if quit then Outside else Polling) && w.loop.waking == old(w).loop.waking
      ensures var batch := old(pendingFunctors) + handlers + arriving;
              w.loop.executed == old(w).loop.executed + batch && pendingFunctors == LeftBy(batch, meanwhile)
      ensures !Stranded(w.loop)
    {
      w := ReachNext(w, PollReturns);
      if reported {
        HandleRead();
      }
      QueueAll(handlers);
      QueueAllFromThread(t, arriving);
      DoPendingFunctors(t, meanwhile, quit);
    }
  }
}
