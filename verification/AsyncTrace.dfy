/** What the log file repeats. A buffer is written with its whole capacity and emptied without being
    cleared (src/logger/AsyncLogging.cc, src/logger/FixedBuffer.h), so old lines come out again. */
module AsyncTrace {
  import opened AsyncModel
  import opened FixedBuffers
  import opened Options
  import Runs

  /** Behind its lines, a buffer's array holds what it held when it was last written, or made. */
  predicate Holds(t: map<nat, string>, b: Buf) {
    b.id in t && |b.used| <= |t[b.id]| && b.rest == t[b.id][|b.used|..]
  }

  predicate SlotHolds(t: map<nat, string>, slot: Option<Buf>) {
    slot.Some? ==> Holds(t, slot.value)
  }

  predicate AllHold(t: map<nat, string>, bufs: seq<Buf>) {
    forall i :: 0 <= i < |bufs| ==> Holds(t, bufs[i])
  }

  predicate WrittenHold(t: map<nat, string>, bufs: seq<Buf>, k: nat) {
    forall i :: 0 <= i < k && i < |bufs| ==> bufs[i].id in t && t[bufs[i].id] == Whole(bufs[i])
  }

  predicate Traced(s: Log, t: map<nat, string>) {
    && Holds(t, s.current) && SlotHolds(t, s.next) && AllHold(t, s.buffers)
    && SlotHolds(t, s.spare1) && SlotHolds(t, s.spare2) && AllHold(t, s.toWrite)
    && (s.place.Writing? ==> WrittenHold(t, s.toWrite, s.place.k))
  }

  lemma {:induction false} IdsHas(bufs: seq<Buf>, i: nat)
    requires i < |bufs|
    ensures Ids(bufs)[bufs[i].id] >= 1
  {
    if i > 0 {
      IdsHas(bufs[1..], i - 1);
    }
  }

  lemma {:induction false} IdsHasTwo(bufs: seq<Buf>, i: nat, j: nat)
    requires i < j < |bufs| && bufs[i].id == bufs[j].id
    ensures Ids(bufs)[bufs[i].id] >= 2
  {
    if i == 0 {
      IdsHas(bufs[1..], j - 1);
    } else {
      IdsHasTwo(bufs[1..], i - 1, j - 1);
    }
  }

  /** None of the buffers has this address. */
  predicate Without(bufs: seq<Buf>, id: nat) {
    forall i :: 0 <= i < |bufs| ==> bufs[i].id != id
  }

  lemma WithoutIds(bufs: seq<Buf>, id: nat)
    requires Ids(bufs)[id] == 0
    ensures Without(bufs, id)
  {
    forall i | 0 <= i < |bufs|
      ensures bufs[i].id != id
    {
      IdsHas(bufs, i);
    }
  }

  predicate SlotWithout(slot: Option<Buf>, id: nat) {
    slot.Some? ==> slot.value.id != id
  }

  /** Outside the batch, no slot has an address that the front end and the spares do not own. */
  lemma OutsideIsWithout(s: Log, id: nat)
    requires (FrontOwned(s) + SlotId(s.spare1) + SlotId(s.spare2))[id] == 0
    ensures s.current.id != id && SlotWithout(s.next, id) && Without(s.buffers, id)
    ensures SlotWithout(s.spare1, id) && SlotWithout(s.spare2, id)
  {
    WithoutIds(s.buffers, id);
  }

  /** The trace of one address may change without touching the others. */
  lemma OthersHold(t: map<nat, string>, bufs: seq<Buf>, id: nat, bytes: string)
    requires AllHold(t, bufs) && Without(bufs, id)
    ensures AllHold(t[id := bytes], bufs)
  {
  }

  lemma AppendedHolds(t: map<nat, string>, b: Buf, line: string)
    requires Holds(t, b)
    ensures Holds(t, BufAppend(b, line))
  {
  }

  lemma AppendInPlaceHolds(s: Log, t: map<nat, string>, line: string, newBuf: Buf)
    requires Traced(s, t) && |line| < |s.current.rest|
    ensures Traced(Append(s, line, newBuf), t)
  {
    AppendedHolds(t, s.current, line);
  }

  lemma RotateHolds(s: Log, t: map<nat, string>, line: string, newBuf: Buf)
    requires Traced(s, t) && |line| >= |s.current.rest| && s.next.Some?
    ensures Traced(Append(s, line, newBuf), t)
  {
    AppendedHolds(t, s.next.value, line);
  }

  lemma MakeHolds(s: Log, t: map<nat, string>, line: string, newBuf: Buf)
    requires Traced(s, t) && |line| >= |s.current.rest| && s.next.None?
    requires newBuf.used == [] && newBuf.id !in Owned(s)
    ensures Traced(Append(s, line, newBuf), t[newBuf.id := newBuf.rest])
  {
    NewBufferIsElsewhere(s, newBuf.id);
    var t' := t[newBuf.id := newBuf.rest];
    OthersHold(t, s.buffers, newBuf.id, newBuf.rest);
    OthersHold(t, s.toWrite, newBuf.id, newBuf.rest);
    AppendedHolds(t', newBuf, line);
  }

  lemma AppendKeepsTrace(w: World, line: string, newBuf: Buf)
    requires Traced(w.log, w.trace) && Enabled(w.log, AppendStep(line, newBuf))
    ensures var w' := Advance(w, AppendStep(line, newBuf)); Traced(w'.log, w'.trace)
  {
    if |line| < |w.log.current.rest| {
      AppendInPlaceHolds(w.log, w.trace, line, newBuf);
    } else if w.log.next.Some? {
      RotateHolds(w.log, w.trace, line, newBuf);
    } else {
      MakeHolds(w.log, w.trace, line, newBuf);
    }
  }

  lemma NewBufferIsElsewhere(s: Log, id: nat)
    requires id !in Owned(s)
    ensures s.current.id != id && SlotWithout(s.next, id) && Without(s.buffers, id)
    ensures SlotWithout(s.spare1, id) && SlotWithout(s.spare2, id) && Without(s.toWrite, id)
  {
    OutsideIsWithout(s, id);
    WithoutIds(s.toWrite, id);
  }

  lemma SwapKeepsTrace(s: Log, t: map<nat, string>)
    requires Traced(s, t) && s.spare1.Some?
    ensures Traced(Swap(s), t)
  {
  }

  lemma OwnersAdd(s: Log, id: nat)
    requires SoleOwners(Owned(s))
    ensures (FrontOwned(s) + SlotId(s.spare1) + SlotId(s.spare2))[id] + Ids(s.toWrite)[id] <= 1
  {
    assert Owned(s) == FrontOwned(s) + SlotId(s.spare1) + SlotId(s.spare2) + Ids(s.toWrite);
    assert Owned(s)[id] <= 1;
  }

  /** The buffer being written is nowhere else. */
  lemma WrittenIsElsewhere(s: Log)
    requires SoleOwners(Owned(s)) && s.place.Writing? && s.place.k < |s.toWrite|
    ensures var id := WrittenNext(s).id;
            && s.current.id != id && SlotWithout(s.next, id) && Without(s.buffers, id)
            && SlotWithout(s.spare1, id) && SlotWithout(s.spare2, id)
            && forall i :: 0 <= i < |s.toWrite| && i != s.place.k ==> s.toWrite[i].id != id
  {
    var k, id := s.place.k, WrittenNext(s).id;
    IdsHas(s.toWrite, k);
    OwnersAdd(s, id);
    OutsideIsWithout(s, id);
    forall i | 0 <= i < |s.toWrite| && i != k
      ensures s.toWrite[i].id != id
    {
      if s.toWrite[i].id == id {
        IdsHasTwo(s.toWrite, if i < k then i else k, if i < k then k else i);
      }
    }
  }

  lemma WriteKeepsTrace(w: World)
    requires Traced(w.log, w.trace) && SoleOwners(Owned(w.log)) && Enabled(w.log, WriteStep)
    ensures var w' := Advance(w, WriteStep); Traced(w'.log, w'.trace)
  {
    WrittenIsElsewhere(w.log);
    var b, t' := WrittenNext(w.log), Advance(w, WriteStep).trace;
    OthersHold(w.trace, w.log.buffers, b.id, Whole(b));
    forall i | 0 <= i < |w.log.toWrite|
      ensures Holds(t', w.log.toWrite[i])
    {
      assert Holds(w.trace, w.log.toWrite[i]);
    }
  }

  lemma ResetHolds(t: map<nat, string>, b: Buf)
    requires b.id in t && t[b.id] == Whole(b)
    ensures Holds(t, BufReset(b))
  {
  }

  lemma RecycleKeepsTrace(s: Log, t: map<nat, string>)
    requires Traced(s, t) && Protocol(s) && Enabled(s, RecycleStep)
    ensures Traced(Recycle(s), t)
  {
    var last := if |s.toWrite| > 1 then 1 else 0;
    ResetHolds(t, s.toWrite[last]);
    ResetHolds(t, s.toWrite[0]);
  }

  lemma StepKeepsTrace(w: World, step: Step)
    requires Inv(w) && Traced(w.log, w.trace) && Enabled(w.log, step) && Defined(w.log, step)
    ensures var w' := Advance(w, step); Traced(w'.log, w'.trace)
  {
    match step
    case AppendStep(line, newBuf) => AppendKeepsTrace(w, line, newBuf);
    case SwapStep => SwapKeepsTrace(w.log, w.trace);
    case WriteStep => WriteKeepsTrace(w);
    case RecycleStep => RecycleKeepsTrace(w.log, w.trace);
    case _ =>
  }

  lemma RunKeepsTrace(size: nat, b: seq<Buf>, steps: seq<Step>, ws: seq<World>, n: nat)
    requires size > 0 && FourBuffers(size, b)
    requires Runs.IsRun(Start(size, b), Next, steps, ws) && n < |ws|
    ensures Traced(ws[n].log, ws[n].trace)
  {
    var inv := (w: World) => Inv(w) && Traced(w.log, w.trace);
    StartIsGood(size, b);
    forall w, step, w' | inv(w) && Next(w, step, w')
      ensures inv(w')
    {
      StepKeeps(w, step);
      StepKeepsTrace(w, step);
    }
    Runs.Invariant(Start(size, b), Next, steps, ws, inv, n);
  }

  /** The step writes the buffer of this address, or `new` hands the address out. */
  predicate Touches(w: World, step: Step, id: nat) {
    match step
    case AppendStep(_, newBuf) => newBuf.id == id
    case WriteStep => w.log.place.Writing? && w.log.place.k < |w.log.toWrite| && WrittenNext(w.log).id == id
    case _ => false
  }

  lemma TraceStays(size: nat, b: seq<Buf>, steps: seq<Step>, ws: seq<World>, i: nat, j: nat, id: nat, bytes: string)
    requires |b| == 4 && Runs.IsRun(Start(size, b), Next, steps, ws) && i <= j < |ws|
    requires forall k {:trigger steps[k]} :: i <= k < j ==> !Touches(ws[k], steps[k], id)
    requires LeftAs(ws[i], id, bytes)
    ensures LeftAs(ws[j], id, bytes)
  {
    forall w, step, w' | LeftAs(w, id, bytes) && !Touches(w, step, id) && Next(w, step, w')
      ensures LeftAs(w', id, bytes)
    {
      TraceStep(w, step, w', id);
    }
    Runs.LaterWhile(Start(size, b), Next, steps, ws, (w: World) => LeftAs(w, id, bytes),
                    (w: World, step: Step) => !Touches(w, step, id), i, j);
  }

  /** The buffer of this address held these bytes when it was last written, or made. */
  predicate LeftAs(w: World, id: nat, bytes: string) {
    id in w.trace && w.trace[id] == bytes
  }

  lemma WriteLeaves(w: World, w': World)
    requires Next(w, WriteStep, w')
    ensures LeftAs(w', WrittenNext(w.log).id, Whole(WrittenNext(w.log)))
  {
  }

  lemma TraceStep(w: World, step: Step, w': World, id: nat)
    requires Defined(w.log, step) && w' == Advance(w, step) && !Touches(w, step, id) && id in w.trace
    ensures id in w'.trace && w'.trace[id] == w.trace[id]
  {
  }

  /** Which bytes the file gets again: between two writings of the same buffer nothing clears its
      array, so the second repeats every byte of the first that lies behind its own lines. */
  lemma BufferRepeats(size: nat, b: seq<Buf>, steps: seq<Step>, ws: seq<World>, i: nat, j: nat)
    requires size > 0 && FourBuffers(size, b)
    requires Runs.IsRun(Start(size, b), Next, steps, ws) && i < j < |steps|
    requires steps[i] == WriteStep && steps[j] == WriteStep
    requires Enabled(ws[i].log, WriteStep) && Enabled(ws[j].log, WriteStep)
    requires WrittenNext(ws[i].log).id == WrittenNext(ws[j].log).id
    requires forall k {:trigger steps[k]} :: i < k < j ==> !Touches(ws[k], steps[k], WrittenNext(ws[i].log).id)
    ensures var x, y := WrittenNext(ws[i].log), WrittenNext(ws[j].log);
            |y.used| <= |Whole(x)| && Whole(y) == y.used + Whole(x)[|y.used|..]
  {
    var x := WrittenNext(ws[i].log);
    WriteLeaves(ws[i], ws[i + 1]);
    TraceStays(size, b, steps, ws, i + 1, j, x.id, Whole(x));
    RunKeepsTrace(size, b, steps, ws, j);
    NextHolds(ws[j].log, ws[j].trace);
  }

  lemma NextHolds(s: Log, t: map<nat, string>)
    requires Traced(s, t) && s.place.Writing? && s.place.k < |s.toWrite|
    ensures Holds(t, WrittenNext(s))
  {
  }

  /** A turn of the back end over an empty queue, nothing being appended. */
  function TurnedOnce(w: World): World
    requires w.log.spare1.Some?
  {
    var s := w.log;
    World(s.(current := s.spare1.value, spare1 := Some(BufReset(s.current)), place := Top, written := s.written + [s.current]),
          w.accepted, w.accepted, w.trace[s.current.id := Whole(s.current)])
  }

  lemma IdleTurn(w: World) returns (steps: seq<Step>, ws: seq<World>)
    requires w.log.place.Top? && w.log.running && w.log.buffers == [] && w.log.toWrite == []
    requires w.log.spare1.Some? && w.log.spare2.Some? && w.log.next.Some?
    ensures Runs.IsRun(w, Next, steps, ws) && ws[|ws| - 1] == TurnedOnce(w)
  {
    var w1 := Advance(w, TestStep);
    var w2 := Advance(w1, SwapStep);
    assert w2.log.toWrite == [w.log.current];
    var w3 := Advance(w2, WriteStep);
    var w4 := Advance(w3, RecycleStep);
    steps, ws := [TestStep, SwapStep, WriteStep, RecycleStep], [w, w1, w2, w3, w4];
    assert Next(w, TestStep, w1) && Next(w1, SwapStep, w2) && Next(w2, WriteStep, w3) && Next(w3, RecycleStep, w4);
  }

  lemma ThreeBuffers(x: Buf, y: Buf, z: Buf)
    ensures FileBytes([x, y, z]) == Whole(x) + Whole(y) + Whole(z)
  {
    OneBuffer(z);
    assert [x, y, z][1..] == [y, z] && [y, z][1..] == [z];
  }

  /** A line that is appended once and is in the file twice: its buffer comes back after two turns
      and is written again with nothing appended to it. */
  lemma LineIsWrittenTwice(size: nat, b: seq<Buf>, line: string, newBuf: Buf) returns (steps: seq<Step>, ws: seq<World>)
    requires FourBuffers(size, b) && |line| < size
    requires IsNew(size, newBuf) && forall i :: 0 <= i < 4 ==> newBuf.id != b[i].id
    ensures Runs.IsRun(Start(size, b), Next, steps, ws)
    ensures var w, rest := ws[|ws| - 1], b[0].rest[|line|..];
            w.accepted == line && FileBytes(w.log.written) == line + rest + b[2].rest + (line + rest)
  {
    var w0, append := Start(size, b), AppendStep(line, newBuf);
    StartOwned(size, b);
    var w1 := Advance(w0, append);
    var more, rest := IdleTurn(w1);
    Runs.Prepend(w0, append, w1, Next, more, rest);
    steps, ws := [append] + more, [w0] + rest;
    var w2 := TurnedOnce(w1);
    more, rest := IdleTurn(w2);
    Runs.Concat(w0, Next, steps, ws, more, rest);
    steps, ws := steps + more, ws + rest[1..];
    var w3 := TurnedOnce(w2);
    more, rest := IdleTurn(w3);
    Runs.Concat(w0, Next, steps, ws, more, rest);
    steps, ws := steps + more, ws + rest[1..];
    var x := BufAppend(b[0], line);
    assert TurnedOnce(w3).log.written == [x, b[2], BufReset(x)];
    ThreeBuffers(x, b[2], BufReset(x));
  }
}
