/** The connection as the source has it: an object with an output buffer, a channel interest and
    a state, changed by sends and channel handlers. Each method is proved to do what the function
    of the same name in ConnModel does. */
module TcpConnectionObject {
  import opened ConnModel
  import opened MachineIntegers
  import opened NetBuffer
  import opened Options

  class TcpConnection {
    var phase: Phase
    // The channel's read and write interest, and whether the poller knows it.
    var reading: bool
    var writing: bool
    var registered: bool
    const inputBuffer: Buffer
    const outputBuffer: Buffer
    // The environment's side: bytes the socket has taken, and shutdownWrite calls made on it.
    var kernel: string
    var shutdowns: nat

    ghost predicate Valid()
      reads this, inputBuffer, outputBuffer
    {
      && inputBuffer != outputBuffer
      && inputBuffer.data != outputBuffer.data
      && inputBuffer.Valid()
      && outputBuffer.Valid()
    }

    ghost function View(): Conn
      requires Valid()
      reads this, inputBuffer, outputBuffer, outputBuffer.data
    {
      Conn(phase, reading, writing, registered, outputBuffer.Contents(), kernel, shutdowns)
    }

    constructor ()
      ensures Valid() && fresh(inputBuffer) && fresh(inputBuffer.data) && fresh(outputBuffer) && fresh(outputBuffer.data)
      ensures View() == NEW_CONN && inputBuffer.Contents() == []
    {
      phase, reading, writing, registered := Connecting, false, false, false;
      kernel, shutdowns := [], 0;
      inputBuffer := new Buffer();
      outputBuffer := new Buffer();
    }

    /** `ok` unless the output buffer cannot make the room, which takes a message of 2 GiB. */
    method SendInLoop(message: string, r: WriteResult) returns (ok: bool)
      requires Valid() && Answers(r, |message|)
      modifies this, outputBuffer, outputBuffer.data
      ensures Valid() && (|message| < INT_LIMIT ==> ok)
      ensures ok ==> View() == ConnModel.SendInLoop(old(View()), message, r)
      ensures outputBuffer.data == old(outputBuffer.data) || fresh(outputBuffer.data)
    {
      ok := true;
      var nwrote := 0;
      var remaining := |message|;
      var faultError := false;
      if phase.Disconnected? {
        return;
      }
      if !writing && outputBuffer.ReadableBytes() == 0 {
        match r {
          case Wrote(n) =>
            nwrote := n;
            kernel := kernel + message[..n];
            remaining := |message| - nwrote;
          case Broken => faultError := true;
          case Refused =>
        }
      }
      if !faultError && remaining > 0 {
        ok := outputBuffer.Append(message[nwrote..]);
        if !writing {
          writing := true;
        }
      }
    }

    method Send(message: string, r: WriteResult) returns (ok: bool)
      requires Valid() && Answers(r, |message|)
      modifies this, outputBuffer, outputBuffer.data
      ensures Valid() && (|message| < INT_LIMIT ==> ok)
      ensures ok ==> View() == ConnModel.Send(old(View()), message, r)
      ensures outputBuffer.data == old(outputBuffer.data) || fresh(outputBuffer.data)
    {
      ok := true;
      if phase.Connected? {
        ok := SendInLoop(message, r);
      }
    }

    /** The overload that takes a buffer also empties it, but only when it is sent. */
    method SendBuffer(buf: Buffer, r: WriteResult) returns (ok: bool)
      requires Valid() && buf.Valid() && buf != outputBuffer && buf != inputBuffer
      requires buf.data != outputBuffer.data && buf.data != inputBuffer.data
      requires Answers(r, |buf.Contents()|)
      modifies this, outputBuffer, outputBuffer.data, buf
      ensures Valid() && buf.Valid() && (old(|buf.Contents()|) < INT_LIMIT ==> ok)
      ensures outputBuffer.data == old(outputBuffer.data) || fresh(outputBuffer.data)
      ensures buf.data == old(buf.data) && buf.data != outputBuffer.data
      ensures ok ==> View() == ConnModel.Send(old(View()), old(buf.Contents()), r)
      ensures buf.Contents() == if old(phase).Connected? then [] else old(buf.Contents())
    {
      ok := true;
      if phase.Connected? {
        var message := buf.data[buf.reader..buf.writer];
        ok := SendInLoop(message, r);
        buf.RetrieveAll();
      }
    }

    method ShutdownInLoop()
      requires Valid()
      modifies this
      ensures Valid() && View() == ConnModel.ShutdownInLoop(old(View()))
    {
      if !writing {
        shutdowns := shutdowns + 1;
      }
    }

    method Shutdown()
      requires Valid()
      modifies this
      ensures Valid() && View() == ConnModel.Shutdown(old(View()))
    {
      if phase.Connected? {
        phase := Disconnecting;
        ShutdownInLoop();
      }
    }

    method HandleWrite(r: WriteResult)
      requires Valid() && Answers(r, |outputBuffer.Contents()|)
      modifies this, outputBuffer
      ensures Valid() && View() == ConnModel.HandleWrite(old(View()), r)
      ensures outputBuffer.data == old(outputBuffer.data)
    {
      if writing {
        if r.Wrote? && r.n > 0 {
          var taken := outputBuffer.RetrieveAsString(r.n);
          kernel := kernel + taken;
          assert old(outputBuffer.Contents())[..r.n] == taken;
          assert old(outputBuffer.Contents())[r.n..] == outputBuffer.Contents();
          if outputBuffer.ReadableBytes() == 0 {
            writing := false;
            if phase.Disconnecting? {
              ShutdownInLoop();
            }
          }
        }
      }
    }

    method HandleClose()
      requires Valid()
      modifies this
      ensures Valid() && View() == ConnModel.HandleClose(old(View()))
    {
      phase, reading, writing := Disconnected, false, false;
    }

    /** A read that delivers nothing means the peer closed; a failed read changes nothing. */
    method HandleRead(delivered: Option<string>) returns (callMessageCallback: bool)
      requires Valid() && (delivered.Some? ==> |delivered.value| <= inputBuffer.ReadCapacity())
      modifies this, inputBuffer, inputBuffer.data
      ensures Valid() && (inputBuffer.data == old(inputBuffer.data) || fresh(inputBuffer.data))
      ensures inputBuffer.Contents() == old(inputBuffer.Contents()) + if delivered.Some? then delivered.value else []
      ensures View() == if delivered == Some([]) then ConnModel.HandleClose(old(View())) else old(View())
      ensures callMessageCallback <==> delivered.Some? && delivered.value != []
    {
      inputBuffer.ReadFd(delivered);
      callMessageCallback := delivered.Some? && delivered.value != [];
      if delivered.Some? && |delivered.value| == 0 {
        HandleClose();
      }
    }

    method ConnectEstablished()
      requires Valid()
      modifies this
      ensures Valid() && View() == ConnModel.ConnectEstablished(old(View()))
    {
      phase := Connected;
      reading, registered := true, true;
    }

    method ConnectDestroyed()
      requires Valid()
      modifies this
      ensures Valid() && View() == ConnModel.ConnectDestroyed(old(View()))
    {
      if phase.Connected? {
        HandleClose();
      }
      registered := false;
    }
  }

  predicate Short(step: Step) {
    step.SendStep? ==> |step.message| < INT_LIMIT
  }

  method TakeStep(c: TcpConnection, step: Step, ghost w: World) returns (ok: bool)
    requires c.Valid() && c.View() == w.conn && Enabled(w.conn, step)
    modifies c, c.outputBuffer, c.outputBuffer.data
    ensures c.Valid() && (c.outputBuffer.data == old(c.outputBuffer.data) || fresh(c.outputBuffer.data))
    ensures Short(step) ==> ok
    ensures ok ==> c.View() == Apply(w, step).conn
  {
    ok := true;
    match step {
      case Establish => c.ConnectEstablished();
      case SendStep(message, r) => ok := c.Send(message, r);
      case ShutdownStep => c.Shutdown();
      case WriteEvent(r) => c.HandleWrite(r);
      case CloseEvent => c.HandleClose();
      case Destroy => c.ConnectDestroyed();
    }
  }

  method IsEnabled(c: TcpConnection, step: Step) returns (enabled: bool)
    requires c.Valid()
    ensures enabled == Enabled(c.View(), step)
  {
    match step {
      case Establish => enabled := c.phase.Connecting?;
      case SendStep(message, r) => enabled := Answers(r, |message|);
      case WriteEvent(r) => enabled := Answers(r, c.outputBuffer.ReadableBytes());
      case _ => enabled := true;
    }
  }

  /** A client that sends, shuts down and is called back in any order has, unless a message of 2 GiB
      could not be queued, a connection in the state of the model's run, with all that is proved
      of it. */
  method Replay(steps: seq<Step>) returns (c: TcpConnection, ok: bool)
    ensures fresh(c) && c.Valid()
    ensures (forall i :: 0 <= i < |steps| ==> Short(steps[i])) ==> ok
    ensures ok ==> c.View() == Replayed(steps).conn && Inv(Replayed(steps))
  {
    c := new TcpConnection();
    ok := true;
    for i := 0 to |steps|
      invariant fresh(c) && fresh(c.outputBuffer) && fresh(c.outputBuffer.data) && c.Valid()
      invariant ok && c.View() == Replayed(steps[..i]).conn
    {
      ReplayedMore(steps, i);
      var enabled := IsEnabled(c, steps[i]);
      if enabled {
        ok := TakeStep(c, steps[i], Replayed(steps[..i]));
        if !ok {
          return;
        }
      }
    }
    assert steps[..|steps|] == steps;
    ReplayedIsGood(steps);
  }
}
