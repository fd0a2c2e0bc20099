/** The output side of a connection as a state machine (src/net/TcpConnection.cc), for calls made
    on the loop thread. The kernel's answer to each write is an argument of the step. */
module ConnModel {
  import Runs

  datatype Phase = Disconnected | Connecting | Connected | Disconnecting

  /** write's result: a count, EPIPE or ECONNRESET, or any other error. */
  datatype WriteResult = Wrote(n: nat) | Broken | Refused

  /** `registered`: the poller knows the channel. `kernel` is every byte write has taken, and
      `shutdowns` counts shutdownWrite calls. */
  datatype Conn = Conn(
    phase: Phase, reading: bool, writing: bool, registered: bool, out: string, kernel: string, shutdowns: nat)

  const NEW_CONN := Conn(Connecting, false, false, false, [], [], 0)

  predicate Answers(r: WriteResult, len: nat) {
    r.Wrote? ==> r.n <= len
  }

  /** sendInLoop tries the socket first only when nothing is queued before the message. */
  predicate TriesSocket(c: Conn) {
    !c.writing && c.out == []
  }

  function Enqueue(c: Conn, rest: string): Conn {
    if rest == [] then c else c.(out := c.out + rest, writing := true)
  }

  function SendInLoop(c: Conn, message: string, r: WriteResult): Conn
    requires Answers(r, |message|)
  {
    if c.phase.Disconnected? then c
    else if TriesSocket(c) then
      match r
      case Wrote(n) => Enqueue(c.(kernel := c.kernel + message[..n]), message[n..])
      case Broken => c
      case Refused => Enqueue(c, message)
    else Enqueue(c, message)
  }

  function Send(c: Conn, message: string, r: WriteResult): Conn
    requires Answers(r, |message|)
  {
    if c.phase.Connected? then SendInLoop(c, message, r) else c
  }

  function ShutdownInLoop(c: Conn): Conn {
    if c.writing then c else c.(shutdowns := c.shutdowns + 1)
  }

  function Shutdown(c: Conn): Conn {
    if c.phase.Connected? then ShutdownInLoop(c.(phase := Disconnecting)) else c
  }

  function HandleWrite(c: Conn, r: WriteResult): Conn
    requires Answers(r, |c.out|)
  {
    if !c.writing || !r.Wrote? || r.n == 0 then c
    else
      var c' := c.(kernel := c.kernel + c.out[..r.n], out := c.out[r.n..]);
      if c'.out != [] then c'
      else if c.phase.Disconnecting? then ShutdownInLoop(c'.(writing := false))
      else c'.(writing := false)
  }

  function HandleClose(c: Conn): Conn {
    c.(phase := Disconnected, reading := false, writing := false)
  }

  function ConnectEstablished(c: Conn): Conn {
    c.(phase := Connected, reading := true, registered := true)
  }

  function ConnectDestroyed(c: Conn): Conn {
    (if c.phase.Connected? then HandleClose(c) else c).(registered := false)
  }

  // ---------------------------------------------------------------- runs

  datatype Step =
    | Establish
    | SendStep(message: string, r: WriteResult)
    | ShutdownStep
    | WriteEvent(r: WriteResult)
    | CloseEvent
    | Destroy

  /** The connection, the concatenation of the messages it accepted, in order, and the concatenation
      of the bytes that write's answers say it took. */
  datatype World = World(conn: Conn, accepted: string, taken: string)

  const START := World(NEW_CONN, [], [])

  /** A message is accepted unless the connection is not up or the socket reports it broken. */
  predicate Accepts(c: Conn, r: WriteResult) {
    c.phase.Connected? && !(!c.writing && c.out == [] && r.Broken?)
  }

  /** What write takes: from a message on a connection that is up and has nothing queued, or from the
      front of the queue at a write event. */
  function TakenBy(c: Conn, step: Step): string
    requires Enabled(c, step)
  {
    match step
    case SendStep(message, Wrote(n)) => if c.phase.Connected? && !c.writing && c.out == [] then message[..n] else []
    case WriteEvent(Wrote(n)) => if c.writing then c.out[..n] else []
    case _ => []
  }

  predicate Enabled(c: Conn, step: Step) {
    match step
    case Establish => c.phase.Connecting?
    case SendStep(message, r) => Answers(r, |message|)
    case WriteEvent(r) => Answers(r, |c.out|)
    case _ => true
  }

  function ConnAfter(c: Conn, step: Step): Conn
    requires Enabled(c, step)
  {
    match step
    case Establish => ConnectEstablished(c)
    case SendStep(message, r) => Send(c, message, r)
    case ShutdownStep => Shutdown(c)
    case WriteEvent(r) => HandleWrite(c, r)
    case CloseEvent => HandleClose(c)
    case Destroy => ConnectDestroyed(c)
  }

  function Apply(w: World, step: Step): World
    requires Enabled(w.conn, step)
  {
    World(ConnAfter(w.conn, step),
          if step.SendStep? && Accepts(w.conn, step.r) then w.accepted + step.message else w.accepted,
          w.taken + TakenBy(w.conn, step))
  }

  predicate Next(w: World, step: Step, w': World) {
    Enabled(w.conn, step) && w' == Apply(w, step)
  }

  /** Conservation of bytes, write interest exactly while something is queued, and shutdownWrite
      only with everything delivered. */
  predicate Inv(w: World) {
    var c := w.conn;
    && c.kernel + c.out == w.accepted
    && c.kernel == w.taken
    && (!c.phase.Disconnected? ==> (c.writing <==> c.out != []))
    && (c.phase.Disconnected? ==> !c.writing && !c.reading)
    && (c.phase.Connecting? ==> c.out == [])
    && (c.phase.Connected? ==> c.reading && c.registered)
    && (c.phase.Connecting? || c.phase.Connected? ==> c.shutdowns == 0)
    && (c.phase.Disconnecting? ==> c.shutdowns == if c.out == [] then 1 else 0)
    && c.shutdowns <= 1
    && (c.shutdowns == 1 ==> c.out == [])
  }

  lemma EnqueueConserves(c: Conn, rest: string)
    ensures Enqueue(c, rest).kernel + Enqueue(c, rest).out == c.kernel + c.out + rest
  {
    if rest != [] {
      assert c.kernel + (c.out + rest) == c.kernel + c.out + rest;
    }
  }

  lemma SendKeeps(w: World, message: string, r: WriteResult)
    requires Inv(w) && Answers(r, |message|)
    ensures Inv(Apply(w, SendStep(message, r)))
  {
    var c := w.conn;
    if Accepts(c, r) {
      if TriesSocket(c) && r.Wrote? {
        EnqueueConserves(c.(kernel := c.kernel + message[..r.n]), message[r.n..]);
        assert c.kernel + message[..r.n] + c.out + message[r.n..] == c.kernel + c.out + message;
      } else {
        EnqueueConserves(c, message);
      }
    }
  }

  lemma WriteKeeps(w: World, r: WriteResult)
    requires Inv(w) && Answers(r, |w.conn.out|)
    ensures Inv(Apply(w, WriteEvent(r)))
  {
    var c := w.conn;
    if c.writing && r.Wrote? {
      assert c.kernel + c.out[..r.n] + c.out[r.n..] == c.kernel + c.out;
    }
  }

  lemma StepKeeps(w: World, step: Step)
    requires Inv(w) && Enabled(w.conn, step)
    ensures Inv(Apply(w, step))
  {
    match step
    case SendStep(message, r) => SendKeeps(w, message, r);
    case WriteEvent(r) => WriteKeeps(w, r);
    case _ =>
  }

  /** For every sequence of sends, partial writes, write events, shutdowns and closes: the bytes
      the kernel took, as write's answers say, followed by the output buffer are the accepted
      messages, and while the connection is up the channel asks for write events exactly when the
      buffer is non-empty. */
  lemma RunKeeps(steps: seq<Step>, ws: seq<World>, n: nat)
    requires Runs.IsRun(START, Next, steps, ws) && n < |ws|
    ensures Inv(ws[n])
  {
    forall w, step, w' | Inv(w) && Next(w, step, w')
      ensures Inv(w')
    {
      StepKeeps(w, step);
    }
    Runs.Invariant(START, Next, steps, ws, Inv, n);
  }

  /** Once shutdown has been called, or the connection closed, nothing more is accepted and
      shutdownWrite calls are not taken back. */
  lemma NothingAcceptedAfterwards(steps: seq<Step>, ws: seq<World>, i: nat, j: nat)
    requires Runs.IsRun(START, Next, steps, ws) && i <= j < |ws|
    requires ws[i].conn.phase.Disconnecting? || ws[i].conn.phase.Disconnected?
    ensures ws[j].accepted == ws[i].accepted && ws[j].conn.shutdowns >= ws[i].conn.shutdowns
    ensures ws[j].conn.phase.Disconnecting? || ws[j].conn.phase.Disconnected?
  {
    var inv := (w: World) =>
      && w.accepted == ws[i].accepted && w.conn.shutdowns >= ws[i].conn.shutdowns
      && (w.conn.phase.Disconnecting? || w.conn.phase.Disconnected?);
    Runs.Later(START, Next, steps, ws, inv, i, j);
  }

  /** shutdownWrite is called at most once, at a moment when every byte accepted before shutdown
      has been written, and from then on nothing is accepted, written or shut down again. */
  lemma ShutdownIsGraceful(steps: seq<Step>, ws: seq<World>, i: nat, j: nat)
    requires Runs.IsRun(START, Next, steps, ws) && i < |steps| && i < j < |ws|
    requires ws[i + 1].conn.shutdowns > ws[i].conn.shutdowns
    ensures ws[i].conn.shutdowns == 0 && ws[j].conn.shutdowns == 1
    ensures ws[i + 1].conn.out == [] && ws[i + 1].conn.kernel == ws[i + 1].accepted == ws[i].accepted
    ensures ws[j].conn.kernel == ws[j].accepted == ws[i + 1].accepted
  {
    var step := steps[i];
    RunKeeps(steps, ws, i);
    RunKeeps(steps, ws, i + 1);
    RunKeeps(steps, ws, j);
    NothingAcceptedAfterwards(steps, ws, i + 1, j);
  }

  /** shutdown does not lose the queue: it takes effect at the write event that empties it. */
  lemma ShutdownWaitsForTheQueue(w: World, r: WriteResult)
    requires Inv(w) && w.conn.phase.Disconnecting? && Answers(r, |w.conn.out|)
    ensures var c := HandleWrite(w.conn, r);
            c.shutdowns > w.conn.shutdowns <==> w.conn.out != [] && r == Wrote(|w.conn.out|)
  {
  }

  /** A write event that takes n bytes shortens the queue by exactly these, in every phase. */
  lemma WriteEventShortens(c: Conn, r: WriteResult)
    requires Answers(r, |c.out|) && c.writing
    ensures HandleWrite(c, r).out == if r.Wrote? then c.out[r.n..] else c.out
  {
  }

  /** How the phase changes: up once, shutting down from up only, and closed by the peer or by
      taking a connection that is up down. */
  lemma PhaseFollows(c: Conn, step: Step)
    requires Enabled(c, step)
    ensures ConnAfter(c, step).phase ==
            match step
            case Establish => Connected
            case ShutdownStep => if c.phase.Connected? then Disconnecting else c.phase
            case CloseEvent => Disconnected
            case Destroy => if c.phase.Connected? then Disconnected else c.phase
            case _ => c.phase
  {
  }

  /** The poller knows the channel from when the connection is up until it is destroyed. */
  lemma KnownUntilDestroyed(c: Conn, step: Step)
    requires Enabled(c, step)
    ensures ConnAfter(c, step).registered <==> step.Establish? || (c.registered && !step.Destroy?)
  {
  }

  /** Where a sequence of steps leads; a step that is not enabled is left out. */
  function Replayed(steps: seq<Step>): World {
    if steps == [] then START
    else
      var w := Replayed(steps[..|steps| - 1]);
      if Enabled(w.conn, steps[|steps| - 1]) then Apply(w, steps[|steps| - 1]) else w
  }

  lemma ReplayedMore(steps: seq<Step>, n: nat)
    requires n < |steps|
    ensures var w := Replayed(steps[..n]);
            Replayed(steps[..n + 1]) == if Enabled(w.conn, steps[n]) then Apply(w, steps[n]) else w
  {
    assert steps[..n + 1][..n] == steps[..n];
  }

  lemma {:induction false} ReplayedIsGood(steps: seq<Step>)
    ensures Inv(Replayed(steps))
  {
    if steps != [] {
      var n := |steps| - 1;
      ReplayedIsGood(steps[..n]);
      if Enabled(Replayed(steps[..n]).conn, steps[n]) {
        StepKeeps(Replayed(steps[..n]), steps[n]);
      }
    }
  }
}
