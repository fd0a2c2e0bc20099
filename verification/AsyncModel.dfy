/** Double buffering between front-end threads and one back-end thread
    (src/logger/AsyncLogging.cc), as steps between which the log mutex is free. */
module AsyncModel {
  import opened FixedBuffers
  import opened Options
  import Runs

  /** The back end at the top of its loop; past the test of `running_`, on its way to or in its
      critical section; about to write buffer number k of its batch; or gone. */
  datatype Place = Top | Waiting | Writing(k: nat) | Exited

  /** The four slots, the two vectors, and the buffers handed to the file so far. */
  datatype Log = Log(
    size: nat, running: bool,
    current: Buf, next: Option<Buf>, buffers: seq<Buf>,
    spare1: Option<Buf>, spare2: Option<Buf>, toWrite: seq<Buf>,
    place: Place, written: seq<Buf>)

  // ---------------------------------------------------------------- the steps

  /** append; `newBuf` is the buffer `new` returns when there is no spare. */
  function Append(s: Log, line: string, newBuf: Buf): Log {
    if |line| < |s.current.rest| then
      s.(current := BufAppend(s.current, line))
    else
      var incoming := if s.next.Some? then s.next.value else newBuf;
      s.(buffers := s.buffers + [s.current], current := BufAppend(incoming, line), next := None)
  }

  /** The back end's critical section. Moving from an empty slot would leave no current buffer. */
  function Swap(s: Log): Log
    requires s.spare1.Some?
  {
    s.(buffers := s.toWrite,
       toWrite := s.buffers + [s.current],
       current := s.spare1.value, spare1 := None,
       next := if s.next.Some? then s.next else s.spare2,
       spare2 := if s.next.Some? then s.spare2 else None,
       place := Writing(0))
  }

  function WriteOne(s: Log): Log
    requires s.place.Writing? && s.place.k < |s.toWrite|
  {
    s.(written := s.written + [s.toWrite[s.place.k]], place := Writing(s.place.k + 1))
  }

  /** How many buffers the recycling step takes from the back of its batch. */
  function Needed(s: Log): nat {
    (if s.spare1.None? then 1 else 0) + (if s.spare2.None? then 1 else 0)
  }

  /** `back()` must never be called on an empty vector. */
  function Recycle(s: Log): Log
    requires Needed(s) <= |s.toWrite|
  {
    var kept := if |s.toWrite| > 2 then s.toWrite[..2] else s.toWrite;
    var spare1 := if s.spare1.None? then Some(BufReset(kept[|kept| - 1])) else s.spare1;
    var kept' := if s.spare1.None? then kept[..|kept| - 1] else kept;
    var spare2 := if s.spare2.None? then Some(BufReset(kept'[|kept'| - 1])) else s.spare2;
    s.(spare1 := spare1, spare2 := spare2, toWrite := [], place := Top)
  }

  /** The loop's test of `running_`. */
  function Test(s: Log): Log {
    s.(place := if s.running then Waiting else Exited)
  }

  datatype Step = AppendStep(line: string, newBuf: Buf) | TestStep | SwapStep | WriteStep | RecycleStep | StopStep

  predicate IsNew(size: nat, b: Buf) {
    b.used == [] && |b.rest| == size
  }

  /** A step is taken at its place; `new` answers with an empty buffer nobody owns. */
  ghost predicate Enabled(s: Log, step: Step) {
    match step
    case AppendStep(line, newBuf) => IsNew(s.size, newBuf) && newBuf.id !in Owned(s)
    case TestStep => s.place.Top?
    case SwapStep => s.place.Waiting?
    case WriteStep => s.place.Writing? && s.place.k < |s.toWrite|
    case RecycleStep => s.place.Writing? && s.place.k == |s.toWrite|
    case StopStep => true
  }

  /** What the code needs at a step so as not to use an empty slot or an empty vector. */
  predicate Defined(s: Log, step: Step) {
    match step
    case SwapStep => s.spare1.Some?
    case WriteStep => s.place.Writing? && s.place.k < |s.toWrite|
    case RecycleStep => Needed(s) <= |s.toWrite|
    case _ => true
  }

  function Apply(s: Log, step: Step): Log
    requires Defined(s, step)
  {
    match step
    case AppendStep(line, newBuf) => Append(s, line, newBuf)
    case TestStep => Test(s)
    case SwapStep => Swap(s)
    case WriteStep => WriteOne(s)
    case RecycleStep => Recycle(s)
    case StopStep => s.(running := false)
  }

  /** The log; the lines appended so far that are shorter than a buffer, in lock order; what of them
      had been appended at the last critical section; and what each buffer's array held when it was
      last written to the file, or made. */
  datatype World = World(log: Log, accepted: string, handed: string, trace: map<nat, string>)

  function Advance(w: World, step: Step): World
    requires Defined(w.log, step)
  {
    World(Apply(w.log, step),
          if step.AppendStep? && |step.line| < w.log.size then w.accepted + step.line else w.accepted,
          if step.SwapStep? then w.accepted else w.handed,
          match step
          case AppendStep(line, newBuf) =>
            if |line| >= |w.log.current.rest| && w.log.next.None? then w.trace[newBuf.id := newBuf.rest] else w.trace
          case WriteStep => w.trace[WrittenNext(w.log).id := Whole(WrittenNext(w.log))]
          case _ => w.trace)
  }

  /** All bytes of a buffer's array. */
  function Whole(b: Buf): string {
    b.used + b.rest
  }

  function WrittenNext(s: Log): Buf
    requires s.place.Writing? && s.place.k < |s.toWrite|
  {
    s.toWrite[s.place.k]
  }

  /** A run takes enabled steps for as long as they are defined. */
  ghost predicate Next(w: World, step: Step, w': World) {
    Enabled(w.log, step) && Defined(w.log, step) && w' == Advance(w, step)
  }

  function Start(size: nat, b: seq<Buf>): World
    requires |b| == 4
  {
    World(Log(size, true, b[0], Some(b[1]), [], Some(b[2]), Some(b[3]), [], Top, []), [], [],
          map[b[0].id := b[0].rest, b[1].id := b[1].rest, b[2].id := b[2].rest, b[3].id := b[3].rest])
  }

  ghost predicate FourBuffers(size: nat, b: seq<Buf>) {
    && |b| == 4
    && (forall i :: 0 <= i < 4 ==> b[i].used == [] && |b[i].rest| == size)
    && (forall i, j :: 0 <= i < j < 4 ==> b[i].id != b[j].id)
  }

  // ---------------------------------------------------------------- the invariant

  function Ids(bufs: seq<Buf>): multiset<nat> {
    if bufs == [] then multiset{} else multiset{bufs[0].id} + Ids(bufs[1..])
  }

  function SlotId(slot: Option<Buf>): multiset<nat> {
    if slot.Some? then multiset{slot.value.id} else multiset{}
  }

  /** Every buffer reachable from a slot or a vector, counted as often as it is reachable. */
  function Owned(s: Log): multiset<nat> {
    FrontOwned(s) + BackOwned(s)
  }

  function FrontOwned(s: Log): multiset<nat> {
    multiset{s.current.id} + SlotId(s.next) + Ids(s.buffers)
  }

  function BackOwned(s: Log): multiset<nat> {
    SlotId(s.spare1) + SlotId(s.spare2) + Ids(s.toWrite)
  }

  ghost predicate SoleOwners(owned: multiset<nat>) {
    forall id :: owned[id] <= 1
  }

  function Payload(bufs: seq<Buf>): string {
    if bufs == [] then [] else bufs[0].used + Payload(bufs[1..])
  }

  /** The part of the batch still to be written. */
  function Pending(s: Log): seq<Buf> {
    if s.place.Writing? && s.place.k <= |s.toWrite| then s.toWrite[s.place.k..] else []
  }

  /** What the front end holds. */
  function Front(s: Log): string {
    Payload(s.buffers) + s.current.used
  }

  predicate Sized(size: nat, b: Buf) {
    |b.used| < size && |b.used| + |b.rest| == size
  }

  predicate EmptySpare(size: nat, slot: Option<Buf>) {
    slot.Some? ==> slot.value.used == [] && |slot.value.rest| == size
  }

  ghost predicate Shape(s: Log) {
    && Sized(s.size, s.current)
    && EmptySpare(s.size, s.next) && EmptySpare(s.size, s.spare1) && EmptySpare(s.size, s.spare2)
    && (forall i :: 0 <= i < |s.buffers| ==> Sized(s.size, s.buffers[i]))
    && (forall i :: 0 <= i < |s.toWrite| ==> Sized(s.size, s.toWrite[i]))
    && (forall i :: 0 <= i < |s.written| ==> Sized(s.size, s.written[i]))
  }

  predicate Protocol(s: Log) {
    && (s.next.None? ==> s.buffers != [])
    && (s.place.Exited? ==> !s.running)
    && (!s.place.Writing? ==> s.spare1.Some? && s.spare2.Some? && s.toWrite == [])
    && (s.place.Writing? ==>
          s.spare1.None? && s.place.k <= |s.toWrite| && 1 <= |s.toWrite| && (s.spare2.None? ==> 2 <= |s.toWrite|))
  }

  /** The buffers written and the batch hold what was handed over, and the front end the rest. */
  predicate Content(w: World) {
    && Payload(w.log.written) + Payload(Pending(w.log)) == w.handed
    && w.handed + Front(w.log) == w.accepted
  }

  ghost predicate Inv(w: World) {
    && w.log.size > 0
    && Shape(w.log)
    && Protocol(w.log)
    && SoleOwners(Owned(w.log))
    && Content(w)
  }

  // ---------------------------------------------------------------- each step keeps it

  lemma Assoc(a: string, b: string, c: string)
    ensures a + (b + c) == (a + b) + c
  {
  }

  lemma {:induction false} IdsOfMore(bufs: seq<Buf>, b: Buf)
    ensures Ids(bufs + [b]) == Ids(bufs) + multiset{b.id}
  {
    if bufs == [] {
      assert bufs + [b] == [b];
    } else {
      IdsOfMore(bufs[1..], b);
      assert (bufs + [b])[1..] == bufs[1..] + [b];
    }
  }

  lemma {:induction false} PayloadOfMore(bufs: seq<Buf>, b: Buf)
    ensures Payload(bufs + [b]) == Payload(bufs) + b.used
  {
    if bufs == [] {
      assert bufs + [b] == [b];
    } else {
      PayloadOfMore(bufs[1..], b);
      assert (bufs + [b])[1..] == bufs[1..] + [b];
      Assoc(bufs[0].used, Payload(bufs[1..]), b.used);
    }
  }

  lemma AppendKeepsContent(s: Log, line: string, newBuf: Buf)
    requires Shape(s) && IsNew(s.size, newBuf)
    ensures Front(Append(s, line, newBuf)) == if |line| < s.size then Front(s) + line else Front(s)
  {
    if |line| < |s.current.rest| {
      Assoc(Payload(s.buffers), s.current.used, line);
    } else {
      PayloadOfMore(s.buffers, s.current);
    }
  }

  /** A line that leaves a byte free goes into the current buffer. Any other takes the next buffer
      or, only if there is none, a new one; the current buffer is then queued behind the others. */
  lemma AppendRotatesIff(s: Log, line: string, newBuf: Buf)
    ensures var s' := Append(s, line, newBuf);
            && s' == s.(current := s'.current, next := s'.next, buffers := s'.buffers)
            && if |line| < |s.current.rest|
               then s'.buffers == s.buffers && s'.next == s.next && s'.current.id == s.current.id
               else s'.buffers == s.buffers + [s.current] && s'.next == None
                    && s'.current.id == if s.next.Some? then s.next.value.id else newBuf.id
    ensures FrontOwned(Append(s, line, newBuf)) ==
            FrontOwned(s) + if |line| >= |s.current.rest| && s.next.None? then multiset{newBuf.id} else multiset{}
  {
    IdsOfMore(s.buffers, s.current);
    if |line| >= |s.current.rest| {
      var incoming := if s.next.Some? then s.next.value else newBuf;
      assert BufAppend(incoming, line).id == incoming.id;
    }
  }

  lemma OneMoreOwner(front: multiset<nat>, back: multiset<nat>, id: nat)
    requires SoleOwners(front + back) && id !in front + back
    ensures SoleOwners(front + multiset{id} + back)
  {
    forall x: nat
      ensures (front + multiset{id} + back)[x] <= 1
    {
      assert (front + back)[x] <= 1;
    }
  }

  lemma AppendKeepsOwners(s: Log, line: string, newBuf: Buf)
    requires SoleOwners(Owned(s)) && newBuf.id !in Owned(s)
    ensures SoleOwners(Owned(Append(s, line, newBuf)))
  {
    AppendRotatesIff(s, line, newBuf);
    OneMoreOwner(FrontOwned(s), BackOwned(s), newBuf.id);
    assert FrontOwned(s) + multiset{} == FrontOwned(s);
    assert BackOwned(Append(s, line, newBuf)) == BackOwned(s);
  }

  lemma AppendKeepsShape(s: Log, line: string, newBuf: Buf)
    requires s.size > 0 && Shape(s) && Protocol(s) && IsNew(s.size, newBuf)
    ensures Shape(Append(s, line, newBuf)) && Protocol(Append(s, line, newBuf))
  {
  }

  lemma AppendAccepts(w: World, line: string, newBuf: Buf)
    requires Shape(w.log) && Content(w) && IsNew(w.log.size, newBuf)
    ensures Content(Advance(w, AppendStep(line, newBuf)))
  {
    AppendKeepsContent(w.log, line, newBuf);
    Assoc(w.handed, Front(w.log), line);
    assert Pending(Append(w.log, line, newBuf)) == Pending(w.log);
  }

  lemma AppendKeeps(w: World, line: string, newBuf: Buf)
    requires Inv(w) && Enabled(w.log, AppendStep(line, newBuf))
    ensures Inv(Advance(w, AppendStep(line, newBuf)))
  {
    AppendKeepsShape(w.log, line, newBuf);
    AppendKeepsOwners(w.log, line, newBuf);
    AppendAccepts(w, line, newBuf);
  }

  lemma SwapKeepsOwners(s: Log)
    requires s.spare1.Some? && s.toWrite == []
    ensures Owned(Swap(s)) == Owned(s)
  {
    IdsOfMore(s.buffers, s.current);
  }

  /** The batch is what the front end held, which holds nothing afterwards. */
  lemma SwapKeepsContent(s: Log)
    requires s.spare1.Some? && EmptySpare(s.size, s.spare1) && s.toWrite == []
    ensures Payload(Pending(Swap(s))) == Front(s) && Front(Swap(s)) == []
  {
    PayloadOfMore(s.buffers, s.current);
  }

  lemma SwapKeepsShape(s: Log)
    requires s.size > 0 && Shape(s) && Protocol(s) && s.place.Waiting?
    ensures Shape(Swap(s)) && Protocol(Swap(s))
  {
  }

  lemma SwapHandsOver(w: World)
    requires Content(w) && w.log.place.Waiting? && w.log.toWrite == []
    requires w.log.spare1.Some? && EmptySpare(w.log.size, w.log.spare1)
    ensures Content(Advance(w, SwapStep))
  {
    SwapKeepsContent(w.log);
    EmptyEnds(Payload(w.log.written), w.accepted);
  }

  lemma EmptyEnds(a: string, b: string)
    ensures a + [] == a && b + [] == b
  {
  }

  lemma SwapKeeps(w: World)
    requires Inv(w) && w.log.place.Waiting?
    ensures Inv(Advance(w, SwapStep))
  {
    var w' := Advance(w, SwapStep);
    assert w'.log == Swap(w.log);
    SwapKeepsShape(w.log);
    SwapKeepsOwners(w.log);
    SwapHandsOver(w);
  }

  lemma WriteKeepsContent(s: Log)
    requires Enabled(s, WriteStep)
    ensures var s' := WriteOne(s);
            Payload(s'.written) + Payload(Pending(s')) == Payload(s.written) + Payload(Pending(s))
  {
    var k := s.place.k;
    PayloadOfMore(s.written, s.toWrite[k]);
    assert Pending(s)[1..] == s.toWrite[k + 1..];
    Assoc(Payload(s.written), s.toWrite[k].used, Payload(s.toWrite[k + 1..]));
  }

  lemma WriteKeepsShape(s: Log)
    requires Shape(s) && Protocol(s) && Enabled(s, WriteStep)
    ensures Shape(WriteOne(s)) && Protocol(WriteOne(s)) && Owned(WriteOne(s)) == Owned(s)
  {
  }

  lemma WriteKeeps(w: World)
    requires Inv(w) && Enabled(w.log, WriteStep)
    ensures Inv(Advance(w, WriteStep))
  {
    WriteKeepsShape(w.log);
    WriteKeepsContent(w.log);
  }

  lemma IdsOfFirst(t: seq<Buf>)
    requires t != []
    ensures multiset{t[0].id} <= Ids(t)
    ensures |t| > 1 ==> multiset{t[0].id} + multiset{t[1].id} <= Ids(t)
  {
    if |t| > 1 {
      assert t[1..][0] == t[1];
    }
  }

  /** The spares come from the first two buffers of the batch, one each. */
  lemma RecycledSpares(s: Log)
    requires s.spare1.None? && 1 <= |s.toWrite| && (s.spare2.None? ==> 2 <= |s.toWrite|)
    ensures Recycle(s).spare1.Some? && Recycle(s).spare2.Some?
    ensures Recycle(s).spare1.value.id == s.toWrite[if |s.toWrite| > 1 then 1 else 0].id
    ensures if s.spare2.None? then Recycle(s).spare2.value.id == s.toWrite[0].id else Recycle(s).spare2 == s.spare2
  {
  }

  lemma RecycleKeepsOwners(s: Log)
    requires s.spare1.None? && 1 <= |s.toWrite| && (s.spare2.None? ==> 2 <= |s.toWrite|)
    ensures BackOwned(Recycle(s)) <= BackOwned(s)
  {
    RecycledSpares(s);
    IdsOfFirst(s.toWrite);
    var s' := Recycle(s);
    assert BackOwned(s') == multiset{s'.spare1.value.id} + multiset{s'.spare2.value.id};
  }

  lemma RecycleKeepsShape(s: Log)
    requires Shape(s) && Protocol(s) && Enabled(s, RecycleStep)
    ensures Shape(Recycle(s)) && Protocol(Recycle(s))
  {
  }

  lemma RecycleKeeps(w: World)
    requires Inv(w) && Enabled(w.log, RecycleStep)
    ensures Inv(Advance(w, RecycleStep))
  {
    RecycleKeepsShape(w.log);
    RecycleKeepsOwners(w.log);
    assert FrontOwned(Recycle(w.log)) == FrontOwned(w.log);
    FewerOwners(Owned(Recycle(w.log)), Owned(w.log));
    assert Pending(w.log) == [];
  }

  lemma FewerOwners(fewer: multiset<nat>, owned: multiset<nat>)
    requires SoleOwners(owned) && fewer <= owned
    ensures SoleOwners(fewer)
  {
  }

  /** Every enabled step is defined: no slot is used while empty, and `back()` is never called
      on an empty vector. */
  lemma EnabledIsDefined(w: World, step: Step)
    requires Inv(w) && Enabled(w.log, step)
    ensures Defined(w.log, step)
  {
  }

  lemma StepKeeps(w: World, step: Step)
    requires Inv(w) && Enabled(w.log, step)
    ensures Defined(w.log, step) && Inv(Advance(w, step))
  {
    match step
    case AppendStep(line, newBuf) => AppendKeeps(w, line, newBuf);
    case SwapStep => SwapKeeps(w);
    case WriteStep => WriteKeeps(w);
    case RecycleStep => RecycleKeeps(w);
    case _ => QuietStepKeeps(w, step);
  }

  lemma QuietStepKeeps(w: World, step: Step)
    requires Inv(w) && Enabled(w.log, step) && (step.TestStep? || step.StopStep?)
    ensures Inv(Advance(w, step))
  {
    assert Owned(Advance(w, step).log) == Owned(w.log);
  }

  lemma SizeIsConstant(w: World, step: Step)
    requires Defined(w.log, step)
    ensures Advance(w, step).log.size == w.log.size
  {
  }

  lemma StartIsGood(size: nat, b: seq<Buf>)
    requires size > 0 && FourBuffers(size, b)
    ensures Inv(Start(size, b))
  {
    StartOwned(size, b);
  }

  lemma StartOwned(size: nat, b: seq<Buf>)
    requires |b| == 4
    ensures Owned(Start(size, b).log) == multiset{b[0].id, b[1].id, b[2].id, b[3].id}
  {
  }

  /** For every interleaving of appends and back-end steps: the used prefixes of the buffers
      written, then of the batch, then of `buffers_`, then of the current buffer, are exactly the
      accepted lines in lock order; no buffer has two owners; `nextBuffer_` is missing only while
      `buffers_` is non-empty; and both spares are back at every loop top. */
  lemma RunKeeps(size: nat, b: seq<Buf>, steps: seq<Step>, ws: seq<World>, n: nat)
    requires size > 0 && FourBuffers(size, b)
    requires Runs.IsRun(Start(size, b), Next, steps, ws) && n < |ws|
    ensures Inv(ws[n]) && ws[n].log.size == size
  {
    StartIsGood(size, b);
    forall w, step, w' | Inv(w) && Next(w, step, w')
      ensures Inv(w')
    {
      StepKeeps(w, step);
    }
    Runs.Invariant(Start(size, b), Next, steps, ws, Inv, n);
    forall w, step, w' | Next(w, step, w')
      ensures w'.log.size == w.log.size
    {
      SizeIsConstant(w, step);
    }
    Runs.Invariant(Start(size, b), Next, steps, ws, (w: World) => w.log.size == size, n);
  }

  /** No run gets stuck: whatever step comes next, the code is defined on it. */
  lemma NeverStuck(size: nat, b: seq<Buf>, steps: seq<Step>, ws: seq<World>, n: nat, step: Step)
    requires size > 0 && FourBuffers(size, b)
    requires Runs.IsRun(Start(size, b), Next, steps, ws) && n < |ws| && Enabled(ws[n].log, step)
    ensures Defined(ws[n].log, step)
  {
    RunKeeps(size, b, steps, ws, n);
    EnabledIsDefined(ws[n], step);
  }

  // ---------------------------------------------------------------- what reaches the file

  /** The code hands `data()` with `length()` to the file, and `length()` is the capacity. */
  function FileBytes(bufs: seq<Buf>): string {
    if bufs == [] then [] else bufs[0].used + bufs[0].rest + FileBytes(bufs[1..])
  }

  lemma {:induction false} FileIsPadded(size: nat, bufs: seq<Buf>)
    requires forall i :: 0 <= i < |bufs| ==> Sized(size, bufs[i])
    ensures |FileBytes(bufs)| == size * |bufs|
    ensures |FileBytes(bufs)| >= |Payload(bufs)| + |bufs|
  {
    if bufs != [] {
      FileIsPadded(size, bufs[1..]);
      OneMore(size, |bufs[1..]|);
    }
  }

  lemma OneMore(size: nat, n: nat)
    ensures size * (n + 1) == size + size * n
  {
  }

  /** The file holds exactly the logged lines only as long as nothing has been written: every
      buffer is written whole, and no buffer is ever full. */
  lemma FileIsPayloadIffNothingWritten(size: nat, b: seq<Buf>, steps: seq<Step>, ws: seq<World>, n: nat)
    requires size > 0 && FourBuffers(size, b)
    requires Runs.IsRun(Start(size, b), Next, steps, ws) && n < |ws|
    ensures FileBytes(ws[n].log.written) == Payload(ws[n].log.written) <==> ws[n].log.written == []
  {
    RunKeeps(size, b, steps, ws, n);
    FileIsPadded(size, ws[n].log.written);
  }

  lemma OneBuffer(b: Buf)
    ensures Payload([b]) == b.used && FileBytes([b]) == b.used + b.rest
  {
    assert [b][1..] == [];
  }

  lemma FirstRound(w: World) returns (steps: seq<Step>, ws: seq<World>)
    requires w.log.place.Top? && w.log.running && w.log.spare1.Some?
    requires w.log.buffers == [] && w.log.toWrite == [] && w.log.written == []
    ensures Runs.IsRun(w, Next, steps, ws)
    ensures ws[|ws| - 1].log.written == [w.log.current] && ws[|ws| - 1].accepted == w.accepted
  {
    var w2 := Advance(w, TestStep);
    var w3 := Advance(w2, SwapStep);
    var w4 := Advance(w3, WriteStep);
    steps, ws := [TestStep, SwapStep, WriteStep], [w, w2, w3, w4];
    assert Next(w, TestStep, w2) && Next(w2, SwapStep, w3) && Next(w3, WriteStep, w4);
  }

  /** One line is enough: after the first round of the back end, the file holds the line and the
      rest of its buffer. */
  lemma PaddedFileIsReachable(size: nat, b: seq<Buf>, line: string, newBuf: Buf) returns (steps: seq<Step>, ws: seq<World>)
    requires FourBuffers(size, b) && |line| < size
    requires IsNew(size, newBuf) && forall i :: 0 <= i < 4 ==> newBuf.id != b[i].id
    ensures Runs.IsRun(Start(size, b), Next, steps, ws)
    ensures var w := ws[|ws| - 1];
            w.accepted == Payload(w.log.written) == line && FileBytes(w.log.written) == line + b[0].rest[|line|..] != line
  {
    var w0 := Start(size, b);
    StartOwned(size, b);
    var append := AppendStep(line, newBuf);
    steps, ws := FirstRound(Advance(w0, append));
    Runs.Prepend(w0, append, Advance(w0, append), Next, steps, ws);
    steps, ws := [append] + steps, [w0] + ws;
    OneBuffer(BufAppend(b[0], line));
  }

  // ---------------------------------------------------------------- what stop leaves behind

  /** After stop: the early lines have been taken over, or are about to be. */
  predicate Takes(w: World, early: string) {
    !w.log.running && early <= w.accepted && (w.log.place.Waiting? || early <= w.handed)
  }

  lemma StillTakes(w: World, early: string, step: Step)
    requires Takes(w, early) && Enabled(w.log, step) && Defined(w.log, step)
    ensures Takes(Advance(w, step), early)
  {
  }

  /** After stop, a back end that is past its test takes over whatever has been appended by then. */
  lemma LastRoundIsTaken(size: nat, b: seq<Buf>, steps: seq<Step>, ws: seq<World>, i: nat, n: nat)
    requires |b| == 4 && Runs.IsRun(Start(size, b), Next, steps, ws) && i < n < |ws| && steps[i] == StopStep
    requires ws[i].log.place.Waiting? && ws[n].log.place.Exited?
    ensures ws[i].accepted <= ws[n].handed
  {
    var early := ws[i].accepted;
    assert Next(ws[i], steps[i], ws[i + 1]);
    forall w, step, w' | Takes(w, early) && Next(w, step, w')
      ensures Takes(w', early)
    {
      StillTakes(w, early, step);
    }
    Runs.Later(Start(size, b), Next, steps, ws, (w: World) => Takes(w, early), i + 1, n);
  }

  /** A back end that is not takes over nothing more. */
  lemma NoRoundIsTaken(size: nat, b: seq<Buf>, steps: seq<Step>, ws: seq<World>, i: nat, n: nat)
    requires |b| == 4 && Runs.IsRun(Start(size, b), Next, steps, ws) && i < n < |ws| && steps[i] == StopStep
    requires !ws[i].log.place.Waiting?
    ensures ws[n].handed == ws[i].handed
  {
    var handed := ws[i].handed;
    var inv := (w: World) => !w.log.running && !w.log.place.Waiting? && w.handed == handed;
    assert Next(ws[i], steps[i], ws[i + 1]);
    Runs.Later(Start(size, b), Next, steps, ws, inv, i + 1, n);
  }

  /** Once stop has returned, the lines of the written buffers are exactly those appended before
      the last critical section, and the front end keeps the others for good. Everything appended
      before stop was called is among them exactly when, at that moment, the back end had passed
      its test of `running_` or the front end held nothing. */
  lemma StopDeliversIff(size: nat, b: seq<Buf>, steps: seq<Step>, ws: seq<World>, i: nat, n: nat)
    requires size > 0 && FourBuffers(size, b)
    requires Runs.IsRun(Start(size, b), Next, steps, ws) && i < n < |ws|
    requires steps[i] == StopStep && ws[n].log.place.Exited?
    ensures Payload(ws[n].log.written) == ws[n].handed
    ensures ws[n].handed + Front(ws[n].log) == ws[n].accepted
    ensures ws[i].accepted <= Payload(ws[n].log.written) <==> ws[i].log.place.Waiting? || Front(ws[i].log) == []
  {
    RunKeeps(size, b, steps, ws, i);
    RunKeeps(size, b, steps, ws, n);
    assert Payload(ws[n].log.written) + [] == ws[n].handed;
    if ws[i].log.place.Waiting? {
      LastRoundIsTaken(size, b, steps, ws, i, n);
    } else {
      NoRoundIsTaken(size, b, steps, ws, i, n);
    }
  }

  /** So lines can be lost: a line appended before stop, when the back end has yet to make its
      test, is not written. */
  lemma StopLosesLines(size: nat, b: seq<Buf>, line: string, newBuf: Buf) returns (steps: seq<Step>, ws: seq<World>)
    requires FourBuffers(size, b) && |line| < size
    requires IsNew(size, newBuf) && forall i :: 0 <= i < 4 ==> newBuf.id != b[i].id
    ensures Runs.IsRun(Start(size, b), Next, steps, ws)
    ensures var w := ws[|ws| - 1]; w.log.place.Exited? && w.accepted == line && w.log.written == []
  {
    var w0 := Start(size, b);
    StartOwned(size, b);
    var append := AppendStep(line, newBuf);
    var w1 := Advance(w0, append);
    var w2 := Advance(w1, StopStep);
    var w3 := Advance(w2, TestStep);
    steps, ws := [append, StopStep, TestStep], [w0, w1, w2, w3];
    assert Next(w0, append, w1) && Next(w1, StopStep, w2) && Next(w2, TestStep, w3);
  }
}
