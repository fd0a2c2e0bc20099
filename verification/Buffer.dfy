/** The byte queue over one vector and two indices (src/net/Buffer.h, src/net/Buffer.cc). */
module NetBuffer {
  import opened MachineIntegers
  import opened Options
  import opened Text

  const CHEAP_PREPEND: nat := 8
  const INITIAL_SIZE: nat := 1024
  const EXTRA_SIZE: nat := 65536

  // ---------------------------------------------------------------- makeSpace takes an `int`

  datatype Plan = Resize(size: int) | SlideLeft

  /** makeSpace's choice for a vector of `size` bytes, given the length it was asked for. */
  function MakeSpacePlan(size: nat, reader: nat, writer: nat, len: nat): Plan
    requires CHEAP_PREPEND <= reader <= writer <= size
  {
    if size - writer + reader < AsUnsigned(AsInt(len) + CHEAP_PREPEND)
    then Resize(writer + AsInt(len))
    else SlideLeft
  }

  /** The tail space after the plan; it is negative when the vector shrinks below its content or
      the new size, read as unsigned, is more than any vector can have. */
  function RoomAfter(size: nat, reader: nat, writer: nat, len: nat): int
    requires CHEAP_PREPEND <= reader <= writer <= size
  {
    match MakeSpacePlan(size, reader, writer, len)
    case Resize(newSize) => newSize - writer
    case SlideLeft => size - (CHEAP_PREPEND + writer - reader)
  }

  /** ensureWritableBytes leaves the room it was asked for. */
  predicate HasRoom(size: nat, reader: nat, writer: nat, len: nat)
    requires CHEAP_PREPEND <= reader <= writer <= size
  {
    len <= size - writer || RoomAfter(size, reader, writer, len) >= len
  }

  lemma ShortLengthsFit(size: nat, reader: nat, writer: nat, len: nat)
    requires CHEAP_PREPEND <= reader <= writer <= size && len < INT_LIMIT
    ensures HasRoom(size, reader, writer, len)
  {
  }

  /** It does so exactly when the length fits an `int`, or the tail is long enough anyway, or sliding
      alone gives the room and the truncated length does not ask for a resize. */
  lemma RoomIffLengthFits(size: nat, reader: nat, writer: nat, len: nat)
    requires CHEAP_PREPEND <= reader <= writer <= size < SIZE_LIMIT
    ensures HasRoom(size, reader, writer, len) <==>
            || len < INT_LIMIT
            || len <= size - writer
            || (len + CHEAP_PREPEND <= size - writer + reader && -(CHEAP_PREPEND as int) <= AsInt(len))
  {
  }

  /** A request for 4 GiB is truncated to nothing: a fresh buffer slides and keeps 1024 bytes. */
  lemma FourGiBIsTruncated()
    ensures RoomAfter(CHEAP_PREPEND + INITIAL_SIZE, CHEAP_PREPEND, CHEAP_PREPEND, UINT32) == INITIAL_SIZE
    ensures !HasRoom(CHEAP_PREPEND + INITIAL_SIZE, CHEAP_PREPEND, CHEAP_PREPEND, UINT32)
  {
  }

  // ---------------------------------------------------------------- the buffer

  class Buffer {
    var data: array<char>
    var reader: nat
    var writer: nat

    ghost predicate Valid()
      reads this
    {
      CHEAP_PREPEND <= reader <= writer <= data.Length
    }

    /** The queue this buffer stands for. */
    ghost function Contents(): string
      requires Valid()
      reads this, data
    {
      data[reader..writer]
    }

    constructor (initialSize: nat := INITIAL_SIZE)
      ensures Valid() && fresh(data) && Contents() == []
    {
      data := new char[CHEAP_PREPEND + initialSize];
      reader, writer := CHEAP_PREPEND, CHEAP_PREPEND;
    }

    function ReadableBytes(): nat
      requires Valid()
      reads this, data
      ensures ReadableBytes() == |Contents()|
    {
      writer - reader
    }

    function WritableBytes(): nat
      requires Valid()
      reads this
    {
      data.Length - writer
    }

    method RetrieveAll()
      requires Valid()
      modifies this
      ensures Valid() && data == old(data) && Contents() == []
    {
      reader, writer := CHEAP_PREPEND, CHEAP_PREPEND;
    }

    method Retrieve(len: nat)
      requires Valid()
      modifies this
      ensures Valid() && data == old(data)
      ensures Contents() == if len < old(|Contents()|) then old(Contents())[len..] else []
    {
      if len < writer - reader {
        reader := reader + len;
      } else {
        RetrieveAll();
      }
    }

    /** The first `len` readable bytes, taken off the queue. */
    method RetrieveAsString(len: nat) returns (s: string)
      requires Valid() && len <= |Contents()|
      modifies this
      ensures Valid() && data == old(data)
      ensures s + Contents() == old(Contents()) && |s| == len
    {
      s := data[reader..reader + len];
      Retrieve(len);
    }

    /** The offset of the first line end, as std::search finds it. */
    method FindLineEnd() returns (r: Option<nat>)
      requires Valid()
      ensures r == FindCRLF(Contents())
    {
      var i := reader;
      while i < writer
        invariant reader <= i <= writer
        invariant FindCRLF(Contents()) == CRLFFrom(Contents(), i - reader)
      {
        if i + 1 < writer && data[i] == '\r' && data[i + 1] == '\n' {
          return Some(i - reader);
        }
        i := i + 1;
      }
      return None;
    }

    /** std::copy within the vector to a place that is not further right. */
    method CopyLeft(to: nat, from: nat, n: nat, ghost content: string)
      requires to <= from && from + n <= data.Length && content == data[from..from + n]
      modifies data
      ensures data[to..to + n] == content
    {
      var i := 0;
      while i < n
        invariant 0 <= i <= n
        invariant forall k :: 0 <= k < i ==> data[to + k] == content[k]
        invariant forall k :: i <= k < n ==> data[from + k] == content[k]
      {
        data[to + i] := data[from + i];
        i := i + 1;
      }
    }

    /** Slides the content to the front, never to the right. */
    method Slide()
      requires Valid()
      modifies this, data
      ensures Valid() && data == old(data) && Contents() == old(Contents())
      ensures reader == CHEAP_PREPEND
    {
      var readable := writer - reader;
      CopyLeft(CHEAP_PREPEND, reader, readable, Contents());
      reader := CHEAP_PREPEND;
      writer := reader + readable;
    }

    /** vector::resize to a longer length. */
    method Grow(size: nat)
      requires Valid() && data.Length <= size
      modifies this
      ensures Valid() && fresh(data) && data.Length == size
      ensures Contents() == old(Contents()) && reader == old(reader) && writer == old(writer)
    {
      var bigger := new char[size](_ => '\0');
      var i := 0;
      while i < data.Length
        invariant 0 <= i <= data.Length
        invariant forall k :: 0 <= k < i ==> bigger[k] == data[k]
        modifies bigger
      {
        bigger[i] := data[i];
        i := i + 1;
      }
      data := bigger;
    }

    /** The parameter is an `int`. A resize that would shrink the vector or throw is not carried out
        here: what the source does after it is undefined. When it slides and that gives the room,
        the content moves strictly to the left. */
    method MakeSpace(len: nat) returns (ok: bool)
      requires Valid() && WritableBytes() < len
      modifies this, data
      ensures Valid() && (data == old(data) || fresh(data)) && Contents() == old(Contents())
      ensures ok <==> RoomAfter(old(data.Length), old(reader), old(writer), len) >= len
      ensures ok ==> len <= WritableBytes() && (data == old(data) ==> reader == CHEAP_PREPEND < old(reader))
      ensures len < INT_LIMIT ==> (data != old(data) <==> old(data.Length - writer) + old(reader) < len + 8)
      ensures ok && data != old(data) ==> data.Length == old(writer) + len && reader == old(reader)
    {
      var n := AsInt(len);
      if WritableBytes() + reader < AsUnsigned(n + CHEAP_PREPEND) {
        if writer + n < data.Length {
          return false;
        }
        Grow(writer + n);
      } else {
        Slide();
      }
      ok := len <= WritableBytes();
    }

    method EnsureWritableBytes(len: nat) returns (ok: bool)
      requires Valid()
      modifies this, data
      ensures Valid() && (data == old(data) || fresh(data)) && Contents() == old(Contents())
      ensures ok <==> HasRoom(old(data.Length), old(reader), old(writer), len)
      ensures ok ==> len <= WritableBytes()
    {
      ok := true;
      if WritableBytes() < len {
        ok := MakeSpace(len);
      }
    }

    /** Copies s behind the content, into tail space that is known to be there. */
    method CopyToTail(s: string)
      requires Valid() && |s| <= WritableBytes()
      modifies this, data
      ensures Valid() && data == old(data)
      ensures Contents() == old(Contents()) + s
    {
      var i := 0;
      while i < |s|
        invariant 0 <= i <= |s|
        invariant data[..writer] == old(data[..writer])
        invariant data[writer..writer + i] == s[..i]
        modifies data
      {
        data[writer + i] := s[i];
        i := i + 1;
      }
      writer := writer + |s|;
    }

    /** Without the room, the source copies past the end of the vector; here nothing is copied. */
    method Append(s: string) returns (ok: bool)
      requires Valid()
      modifies this, data
      ensures Valid() && (data == old(data) || fresh(data))
      ensures ok <==> HasRoom(old(data.Length), old(reader), old(writer), |s|)
      ensures |s| < INT_LIMIT ==> ok
      ensures Contents() == old(Contents()) + if ok then s else []
    {
      if |s| < INT_LIMIT {
        ShortLengthsFit(data.Length, reader, writer, |s|);
      }
      ok := EnsureWritableBytes(|s|);
      if ok {
        CopyToTail(s);
      }
    }

    /** How much one readv can take: the tail, and the stack area when the tail is short. */
    function ReadCapacity(): nat
      requires Valid()
      reads this
    {
      WritableBytes() + if WritableBytes() < EXTRA_SIZE then EXTRA_SIZE else 0
    }

    /** What readv delivered, or None when it failed: the first part lands in the tail and the
        rest, from the stack area, is appended. */
    method ReadFd(delivered: Option<string>)
      requires Valid() && (delivered.Some? ==> |delivered.value| <= ReadCapacity())
      modifies this, data
      ensures Valid() && (data == old(data) || fresh(data))
      ensures Contents() == old(Contents()) + if delivered.Some? then delivered.value else []
    {
      if delivered.None? {
        return;
      }
      var writable, n := WritableBytes(), |delivered.value|;
      if n <= writable {
        CopyToTail(delivered.value);
      } else {
        CopyToTail(delivered.value[..writable]);
        var ok := Append(delivered.value[writable..]);
        assert delivered.value == delivered.value[..writable] + delivered.value[writable..];
      }
    }
  }

  // ---------------------------------------------------------------- every run is a queue

  datatype Op = AppendOp(s: string) | RetrieveOp(len: nat) | RetrieveAllOp | ReadOp(arrived: string)

  /** A plain queue of bytes; `taken` is how much of the offered bytes an append or read accepted. */
  function QueueStep(q: string, op: Op, taken: nat): string {
    match op
    case AppendOp(s) => q + if taken < |s| then s[..taken] else s
    case RetrieveOp(len) => if len < |q| then q[len..] else []
    case RetrieveAllOp => []
    case ReadOp(arrived) => q + if taken < |arrived| then arrived[..taken] else arrived
  }

  function QueueRun(ops: seq<Op>, taken: seq<nat>): string
    requires |ops| == |taken|
  {
    if ops == [] then []
    else
      var n := |ops| - 1;
      QueueStep(QueueRun(ops[..n], taken[..n]), ops[n], taken[n])
  }

  /** An append takes its text, or nothing of a text of 2 GiB or more. A read takes what has arrived
      up to the capacity, and never less than 64 KiB of it. */
  predicate Takes(op: Op, n: nat) {
    match op
    case AppendOp(s) => n == |s| || (n == 0 && |s| >= INT_LIMIT)
    case ReadOp(arrived) => n == |arrived| || EXTRA_SIZE <= n <= |arrived|
    case _ => true
  }

  method ApplyOp(b: Buffer, op: Op) returns (n: nat)
    requires b.Valid()
    modifies b, b.data
    ensures b.Valid() && (b.data == old(b.data) || fresh(b.data))
    ensures Takes(op, n)
    ensures op.ReadOp? ==>
              var room := old(b.data.Length - b.writer);
              var most := if room < 65536 then room + 65536 else room;
              n == if |op.arrived| < most then |op.arrived| else most
    ensures b.Contents() == QueueStep(old(b.Contents()), op, n)
  {
    n := 0;
    match op {
      case AppendOp(s) =>
        var ok := b.Append(s);
        n := if ok then |s| else 0;
      case RetrieveOp(len) => b.Retrieve(len);
      case RetrieveAllOp => b.RetrieveAll();
      case ReadOp(arrived) =>
        n := if |arrived| <= b.ReadCapacity() then |arrived| else b.ReadCapacity();
        b.ReadFd(Some(arrived[..n]));
    }
  }

  lemma RunExtends(ops: seq<Op>, taken: seq<nat>, n: nat)
    requires |taken| < |ops|
    ensures QueueRun(ops[..|taken| + 1], taken + [n]) == QueueStep(QueueRun(ops[..|taken|], taken), ops[|taken|], n)
  {
    assert ops[..|taken| + 1][..|taken|] == ops[..|taken|];
  }

  /** Any sequence of appends, retrieves and reads leaves exactly what a plain queue would hold. */
  method Replay(ops: seq<Op>) returns (contents: string, taken: seq<nat>)
    ensures |taken| == |ops| && forall i :: 0 <= i < |ops| ==> Takes(ops[i], taken[i])
    ensures contents == QueueRun(ops, taken)
  {
    var b := new Buffer();
    taken := [];
    for i := 0 to |ops|
      invariant |taken| == i && forall k :: 0 <= k < i ==> Takes(ops[k], taken[k])
      invariant b.Valid() && fresh(b) && fresh(b.data)
      invariant b.Contents() == QueueRun(ops[..i], taken)
    {
      var n := ApplyOp(b, ops[i]);
      RunExtends(ops, taken, n);
      taken := taken + [n];
    }
    assert ops[..|ops|] == ops;
    contents := b.data[b.reader..b.writer];
  }
}
