/** The logger as the source has it: buffers owned by one pointer each, moved between the fields
    of the front end and the locals of the back-end thread. A unique_ptr is an Option of the
    buffer it owns, and moving from it leaves None. */
module AsyncLoggingObject {
  import opened AsyncModel
  import opened FixedBuffers
  import opened Options

  class AsyncLogging {
    const size: nat
    var running: bool
    var currentBuffer: Option<Buf>
    var nextBuffer: Option<Buf>
    var buffers: seq<Buf>
    // The back-end thread's locals, and the buffers it has handed to the file.
    var newBuffer1: Option<Buf>
    var newBuffer2: Option<Buf>
    var buffersToWrite: seq<Buf>
    var place: Place
    var written: seq<Buf>

    /** There is a current buffer whenever the mutex is free, and the slots follow the protocol. */
    ghost predicate Valid()
      reads this
    {
      currentBuffer.Some? && Protocol(View())
    }

    ghost function View(): Log
      requires currentBuffer.Some?
      reads this
    {
      Log(size, running, currentBuffer.value, nextBuffer, buffers, newBuffer1, newBuffer2, buffersToWrite, place, written)
    }

    constructor (size: nat, b: seq<Buf>)
      requires FourBuffers(size, b)
      ensures Valid() && View() == Start(size, b).log
    {
      this.size, running := size, true;
      currentBuffer, nextBuffer, buffers := Some(b[0]), Some(b[1]), [];
      newBuffer1, newBuffer2, buffersToWrite := Some(b[2]), Some(b[3]), [];
      place, written := Top, [];
    }

    /** `newBuf` is the buffer `new` answers with, if it comes to that. */
    method Append(line: string, newBuf: Buf)
      requires Valid()
      modifies this`currentBuffer, this`nextBuffer, this`buffers
      ensures Valid() && View() == AsyncModel.Append(old(View()), line, newBuf)
    {
      if |currentBuffer.value.rest| > |line| {
        currentBuffer := Some(BufAppend(currentBuffer.value, line));
      } else {
        buffers := buffers + [currentBuffer.value];
        currentBuffer := None;
        if nextBuffer.Some? {
          currentBuffer := nextBuffer;
          nextBuffer := None;
        } else {
          currentBuffer := Some(newBuf);
        }
        currentBuffer := Some(BufAppend(currentBuffer.value, line));
      }
    }

    /** The test at the top of the back end's loop. */
    method TestRunning() returns (again: bool)
      requires Valid() && place.Top?
      modifies this`place
      ensures Valid() && View() == AsyncModel.Test(old(View())) && again == running
    {
      again := running;
      place := if running then Waiting else Exited;
    }

    /** The first half of stop; the second waits for the back end to exit. */
    method Stop()
      requires Valid()
      modifies this`running
      ensures Valid() && View() == old(View()).(running := false)
    {
      running := false;
    }

    /** The back end's critical section: its batch is everything the front end had. */
    method Swap()
      requires Valid() && place.Waiting?
      modifies this
      ensures Valid() && View() == AsyncModel.Swap(old(View()))
    {
      buffers := buffers + [currentBuffer.value];
      currentBuffer := newBuffer1;
      newBuffer1 := None;
      buffersToWrite, buffers := buffers, buffersToWrite;
      if nextBuffer.None? {
        nextBuffer := newBuffer2;
        newBuffer2 := None;
      }
      place := Writing(0);
    }

    /** The write loop hands over the whole batch, in order. */
    method WriteBatch()
      requires Valid() && place == Writing(0)
      modifies this`written, this`place
      ensures Valid() && place == Writing(|buffersToWrite|)
      ensures written == old(written) + buffersToWrite
    {
      var k := 0;
      while k < |buffersToWrite|
        invariant 0 <= k <= |buffersToWrite| && place == Writing(k)
        invariant written == old(written) + buffersToWrite[..k]
        invariant Valid()
      {
        written := written + [buffersToWrite[k]];
        place := Writing(k + 1);
        k := k + 1;
      }
    }

    method PopBack() returns (b: Buf)
      requires buffersToWrite != []
      modifies this`buffersToWrite
      ensures b == old(buffersToWrite)[|old(buffersToWrite)| - 1]
      ensures buffersToWrite == old(buffersToWrite)[..|old(buffersToWrite)| - 1]
    {
      b := buffersToWrite[|buffersToWrite| - 1];
      buffersToWrite := buffersToWrite[..|buffersToWrite| - 1];
    }

    /** Keeps two buffers at most and gives them back, emptied, to the slots that lack one. */
    method Recycle()
      requires Valid() && place == Writing(|buffersToWrite|)
      modifies this
      ensures Valid() && View() == AsyncModel.Recycle(old(View()))
      ensures newBuffer1.Some? && newBuffer2.Some?
    {
      if |buffersToWrite| > 2 {
        buffersToWrite := buffersToWrite[..2];
      }
      if newBuffer1.None? {
        var spare := PopBack();
        newBuffer1 := Some(BufReset(spare));
      }
      if newBuffer2.None? {
        var spare := PopBack();
        newBuffer2 := Some(BufReset(spare));
      }
      buffersToWrite := [];
      place := Top;
    }

    method AppendAll(lines: seq<(string, Buf)>)
      requires Valid()
      modifies this`currentBuffer, this`nextBuffer, this`buffers
      ensures Valid()
      ensures lines == [] ==> View() == old(View())
    {
      for i := 0 to |lines|
        invariant Valid() && (i == 0 ==> View() == old(View()))
      {
        Append(lines[i].0, lines[i].1);
      }
    }

    /** A whole turn of the back end's loop, while the front end appends: what the front end held at
        the critical section is handed over in order, and both spares are back afterwards. */
    method Round(early: seq<(string, Buf)>, late: seq<(string, Buf)>)
      requires Valid() && place.Waiting?
      modifies this
      ensures Valid() && place.Top? && running == old(running)
      ensures written == old(written) + old(buffers) + [old(currentBuffer).value]
      ensures newBuffer1.Some? && newBuffer2.Some?
      ensures early == late == [] ==> buffers == [] && currentBuffer == old(newBuffer1) && nextBuffer.Some?
    {
      Swap();
      AppendAll(early);
      WriteBatch();
      AppendAll(late);
      Recycle();
    }
  }
}
