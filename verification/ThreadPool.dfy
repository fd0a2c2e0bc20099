/** The worker pool (src/base/ThreadPool.cc): any number of threads adding tasks, one stop, and
    the workers' loop around a condition variable, as steps between which the mutex is free.
    Tasks do not throw. */
module ThreadPoolModel {
  import Runs

  type Task = nat

  /** A worker is about to take the mutex, waiting on the condition, running a task, or gone. */
  datatype Worker = Awake | Asleep | Busy | Exited

  datatype Pool = Pool(running: bool, queue: seq<Task>, workers: seq<Worker>)

  datatype Step =
    | Add(task: Task, woken: nat)   // `woken` is the waiter notify_one picks, if there is one
    | Stop
    | Lock(w: nat)                  // worker w takes the mutex and looks at the queue
    | Finish(w: nat)                // worker w returns from its task
    | Spurious(w: nat)              // worker w wakes without a notification

  predicate SomeAsleep(workers: seq<Worker>) {
    exists w :: 0 <= w < |workers| && workers[w].Asleep?
  }

  predicate Enabled(p: Pool, step: Step) {
    match step
    case Add(_, woken) => SomeAsleep(p.workers) ==> woken < |p.workers| && p.workers[woken].Asleep?
    case Stop => true
    case Lock(w) => w < |p.workers| && p.workers[w].Awake?
    case Finish(w) => w < |p.workers| && p.workers[w].Busy?
    case Spurious(w) => w < |p.workers| && p.workers[w].Asleep?
  }

  function WakeAll(workers: seq<Worker>): (r: seq<Worker>)
    ensures |r| == |workers|
    ensures forall w :: 0 <= w < |r| ==> r[w] == if workers[w].Asleep? then Awake else workers[w]
  {
    if workers == [] then []
    else [if workers[0].Asleep? then Awake else workers[0]] + WakeAll(workers[1..])
  }

  function Apply(p: Pool, step: Step): Pool
    requires Enabled(p, step)
  {
    match step
    case Add(task, woken) =>
      Pool(p.running, p.queue + [task], if SomeAsleep(p.workers) then p.workers[woken := Awake] else p.workers)
    case Stop => Pool(false, p.queue, WakeAll(p.workers))
    case Lock(w) =>
      if p.queue != [] then Pool(p.running, p.queue[1..], p.workers[w := Busy])
      else if p.running then p.(workers := p.workers[w := Asleep])
      else p.(workers := p.workers[w := Exited])
    case Finish(w) => p.(workers := p.workers[w := Awake])
    case Spurious(w) => p.(workers := p.workers[w := Awake])
  }

  predicate AllExited(workers: seq<Worker>) {
    forall w :: 0 <= w < |workers| ==> workers[w].Exited?
  }

  /** The pool, the tasks taken off the queue, the tasks added while some worker was left, and
      the tasks added after the last worker had gone. */
  datatype World = World(pool: Pool, taken: seq<Task>, timely: seq<Task>, late: seq<Task>)

  function Start(n: nat): World {
    World(Pool(true, [], seq(n, _ => Awake)), [], [], [])
  }

  function Advance(w: World, step: Step): World
    requires Enabled(w.pool, step)
  {
    var pool := Apply(w.pool, step);
    match step
    case Add(task, _) =>
      if AllExited(w.pool.workers) then w.(pool := pool, late := w.late + [task])
      else w.(pool := pool, timely := w.timely + [task])
    case Lock(_) => if w.pool.queue != [] then w.(pool := pool, taken := w.taken + [w.pool.queue[0]]) else w.(pool := pool)
    case _ => w.(pool := pool)
  }

  predicate Next(w: World, step: Step, w': World) {
    Enabled(w.pool, step) && w' == Advance(w, step)
  }

  /** Some worker will look at the queue without being notified. */
  predicate SomeActive(workers: seq<Worker>) {
    exists w :: 0 <= w < |workers| && (workers[w].Awake? || workers[w].Busy?)
  }

  ghost predicate Inv(w: World) {
    && |w.pool.workers| > 0
    && w.taken + w.pool.queue == w.timely + w.late
    && (w.pool.running ==> forall k :: 0 <= k < |w.pool.workers| ==> !w.pool.workers[k].Exited?)
    && (!w.pool.running ==> !SomeAsleep(w.pool.workers))
    && (!AllExited(w.pool.workers) && w.pool.queue != [] ==> SomeActive(w.pool.workers))
    && (w.late != [] ==> AllExited(w.pool.workers))
    && (AllExited(w.pool.workers) ==> w.taken == w.timely && w.pool.queue == w.late)
  }

  lemma AddKeeps(w: World, task: Task, woken: nat)
    requires Inv(w) && Enabled(w.pool, Add(task, woken))
    ensures Inv(Advance(w, Add(task, woken)))
  {
    var workers := w.pool.workers;
    var w' := Advance(w, Add(task, woken));
    assert w.taken + (w.pool.queue + [task]) == w.taken + w.pool.queue + [task];
    if AllExited(workers) {
      assert !SomeAsleep(workers);
      assert w.timely + (w.late + [task]) == w.timely + w.late + [task];
    } else {
      assert w.late == [];
      assert w.timely + [task] + [] == w.timely + [] + [task];
      if SomeAsleep(workers) {
        assert w'.pool.workers[woken].Awake?;
      } else {
        var k :| 0 <= k < |workers| && !workers[k].Exited?;
        assert workers[k].Awake? || workers[k].Busy?;
      }
    }
  }

  lemma StopKeeps(w: World)
    requires Inv(w)
    ensures Inv(Advance(w, Stop))
  {
    var workers, workers' := w.pool.workers, WakeAll(w.pool.workers);
    assert AllExited(workers') <==> AllExited(workers);
    if SomeActive(workers) {
      var k :| 0 <= k < |workers| && (workers[k].Awake? || workers[k].Busy?);
      assert workers'[k] == workers[k];
    }
  }

  lemma LockKeeps(w: World, k: nat)
    requires Inv(w) && Enabled(w.pool, Lock(k))
    ensures Inv(Advance(w, Lock(k)))
  {
    var p, w' := w.pool, Advance(w, Lock(k));
    assert !AllExited(p.workers);
    assert w.late == [];
    if p.queue != [] {
      assert w.taken + [p.queue[0]] + p.queue[1..] == w.taken + p.queue;
      assert w'.pool.workers[k].Busy?;
    } else if !p.running {
      assert w.taken + [] == w.taken && w.timely + [] == w.timely;
    } else {
      assert w'.pool.workers[k].Asleep?;
    }
  }

  lemma WakeKeeps(w: World, k: nat, step: Step)
    requires Inv(w) && Enabled(w.pool, step) && (step == Finish(k) || step == Spurious(k))
    ensures Inv(Advance(w, step))
  {
    assert Advance(w, step).pool.workers[k].Awake?;
  }

  lemma StepKeeps(w: World, step: Step)
    requires Inv(w) && Enabled(w.pool, step)
    ensures Inv(Advance(w, step))
  {
    match step
    case Add(task, woken) => AddKeeps(w, task, woken);
    case Stop => StopKeeps(w);
    case Lock(k) => LockKeeps(w, k);
    case Finish(k) => WakeKeeps(w, k, step);
    case Spurious(k) => WakeKeeps(w, k, step);
  }

  lemma RunKeeps(n: nat, steps: seq<Step>, ws: seq<World>, i: nat)
    requires n > 0 && Runs.IsRun(Start(n), Next, steps, ws) && i < |ws|
    ensures Inv(ws[i])
  {
    assert Start(n).pool.workers[0].Awake?;
    forall w, step, w' | Inv(w) && Next(w, step, w')
      ensures Inv(w')
    {
      StepKeeps(w, step);
    }
    Runs.Invariant(Start(n), Next, steps, ws, Inv, i);
  }

  /** With at least one worker, over every interleaving: tasks are taken in the order they were
      added and each at most once; a non-empty queue never meets only sleeping workers; after
      stop nobody sleeps; and once the last worker is gone, every task added while a worker was
      left has been taken, and exactly the later ones stay behind. */
  lemma PoolIsSafe(n: nat, steps: seq<Step>, ws: seq<World>, i: nat)
    requires n > 0 && Runs.IsRun(Start(n), Next, steps, ws) && i < |ws|
    ensures var w := ws[i];
            && w.taken <= w.timely + w.late
            && (w.pool.running && w.pool.queue != [] ==> SomeActive(w.pool.workers))
            && (!w.pool.running ==> !SomeAsleep(w.pool.workers))
            && (AllExited(w.pool.workers) ==> w.taken == w.timely && w.pool.queue == w.late)
  {
    RunKeeps(n, steps, ws, i);
    var w := ws[i];
    assert w.taken == (w.taken + w.pool.queue)[..|w.taken|];
    if w.pool.running {
      assert !w.pool.workers[0].Exited?;
    }
  }

  /** The queue is empty at the moment the last worker exits. */
  lemma LastExitLeavesNothing(n: nat, steps: seq<Step>, ws: seq<World>, i: nat)
    requires n > 0 && Runs.IsRun(Start(n), Next, steps, ws) && i < |steps|
    requires !AllExited(ws[i].pool.workers) && AllExited(ws[i + 1].pool.workers)
    ensures ws[i + 1].pool.queue == [] && ws[i + 1].taken == ws[i + 1].timely
  {
    RunKeeps(n, steps, ws, i);
    RunKeeps(n, steps, ws, i + 1);
    assert Next(ws[i], steps[i], ws[i + 1]);
    assert ws[i + 1].late == ws[i].late == [];
  }

  /** What a worker does with the mutex in hand: it takes the oldest task, waits while there may be
      more, and exits when there is none left after stop. The other steps concern the flag, the
      queue and one waiter only. */
  lemma WorkersDecide(p: Pool, step: Step)
    requires Enabled(p, step)
    ensures Apply(p, step).running <==> p.running && !step.Stop?
    ensures step.Lock? ==>
              && Apply(p, step).queue == (if p.queue == [] then [] else p.queue[1..])
              && Apply(p, step).workers == p.workers[step.w := if p.queue != [] then Busy else if p.running then Asleep else Exited]
    ensures step.Finish? || step.Spurious? ==>
              Apply(p, step).queue == p.queue && Apply(p, step).workers == p.workers[step.w := Awake]
    ensures step.Stop? ==> Apply(p, step).queue == p.queue
    ensures step.Add? ==>
              && Apply(p, step).queue == p.queue + [step.task]
              && Apply(p, step).workers == (if SomeAsleep(p.workers) then p.workers[step.woken := Awake] else p.workers)
  {
  }

  /** After stop, the workers alone can all come to their end, and nothing is left in the queue. */
  lemma CanExit(w: World) returns (steps: seq<Step>, ws: seq<World>)
    requires Inv(w) && !w.pool.running && !AllExited(w.pool.workers)
    ensures Runs.IsRun(w, Next, steps, ws) && AllExited(ws[|ws| - 1].pool.workers) && ws[|ws| - 1].pool.queue == []
    ensures forall i :: 0 <= i < |steps| ==> steps[i].Lock? || steps[i].Finish?
  {
    steps, ws := CanDrain(w);
    var w1 := ws[|ws| - 1];
    DrainKeeps(w, steps, ws, |ws| - 1);
    var more, rest := ExitFrom(w1, 0);
    Runs.Concat(w, Next, steps, ws, more, rest);
    steps, ws := steps + more, ws + rest[1..];
  }

  lemma {:induction false} DrainKeeps(w: World, steps: seq<Step>, ws: seq<World>, n: nat)
    requires Inv(w) && !w.pool.running && Runs.IsRun(w, Next, steps, ws) && n < |ws|
    ensures Inv(ws[n]) && !ws[n].pool.running
  {
    if n > 0 {
      DrainKeeps(w, steps, ws, n - 1);
      assert Next(ws[n - 1], steps[n - 1], ws[n]);
      StepKeeps(ws[n - 1], steps[n - 1]);
    }
  }

  /** The workers from k on exit one after the other. */
  lemma {:induction false} ExitFrom(w: World, k: nat) returns (steps: seq<Step>, ws: seq<World>)
    requires Inv(w) && !w.pool.running && w.pool.queue == [] && k <= |w.pool.workers|
    requires forall i :: 0 <= i < k ==> w.pool.workers[i].Exited?
    ensures Runs.IsRun(w, Next, steps, ws) && AllExited(ws[|ws| - 1].pool.workers) && ws[|ws| - 1].pool.queue == []
    ensures forall i :: 0 <= i < |steps| ==> steps[i].Lock? || steps[i].Finish?
    decreases |w.pool.workers| - k
  {
    if k == |w.pool.workers| {
      steps, ws := [], [w];
    } else if w.pool.workers[k].Exited? {
      steps, ws := ExitFrom(w, k + 1);
    } else {
      assert !w.pool.workers[k].Asleep?;
      var w1 := if w.pool.workers[k].Busy? then Advance(w, Finish(k)) else w;
      if w.pool.workers[k].Busy? {
        StepKeeps(w, Finish(k));
      }
      var w2 := Advance(w1, Lock(k));
      StepKeeps(w1, Lock(k));
      steps, ws := ExitFrom(w2, k + 1);
      Runs.Prepend(w1, Lock(k), w2, Next, steps, ws);
      steps, ws := [Lock(k)] + steps, [w1] + ws;
      if w.pool.workers[k].Busy? {
        Runs.Prepend(w, Finish(k), w1, Next, steps, ws);
        steps, ws := [Finish(k)] + steps, [w] + ws;
      }
    }
  }

  /** The pool never gets stuck on work: from every good state with a worker left, steps of the
      workers alone, with no further notification, empty the queue. */
  lemma {:induction false} CanDrain(w: World) returns (steps: seq<Step>, ws: seq<World>)
    requires Inv(w) && !AllExited(w.pool.workers)
    ensures Runs.IsRun(w, Next, steps, ws) && ws[|ws| - 1].pool.queue == []
    ensures forall i :: 0 <= i < |steps| ==> steps[i].Lock? || steps[i].Finish?
    decreases |w.pool.queue|
  {
    if w.pool.queue == [] {
      steps, ws := [], [w];
    } else {
      var k :| 0 <= k < |w.pool.workers| && (w.pool.workers[k].Awake? || w.pool.workers[k].Busy?);
      var w1 := if w.pool.workers[k].Busy? then Advance(w, Finish(k)) else w;
      assert Inv(w1) by {
        if w.pool.workers[k].Busy? { StepKeeps(w, Finish(k)); }
      }
      var w2 := Advance(w1, Lock(k));
      StepKeeps(w1, Lock(k));
      assert w2.pool.workers[k].Busy?;
      steps, ws := CanDrain(w2);
      Runs.Prepend(w1, Lock(k), w2, Next, steps, ws);
      steps, ws := [Lock(k)] + steps, [w1] + ws;
      if w.pool.workers[k].Busy? {
        Runs.Prepend(w, Finish(k), w1, Next, steps, ws);
        steps, ws := [Finish(k)] + steps, [w] + ws;
      }
    }
  }
}
