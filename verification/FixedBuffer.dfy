/** The fixed array with a write pointer under the logger (src/logger/FixedBuffer.h). */
module FixedBuffers {
  const SMALL_BUFFER: nat := 4000

  /** A buffer's value: `id` is its address, `used` the prefix up to the write pointer, `rest`
      what the array still holds behind it. */
  datatype Buf = Buf(id: nat, used: string, rest: string)

  function BufAppend(b: Buf, line: string): Buf {
    if |line| < |b.rest| then b.(used := b.used + line, rest := b.rest[|line|..]) else b
  }

  function BufReset(b: Buf): Buf {
    b.(used := [], rest := b.used + b.rest)
  }

  class FixedBuffer {
    const data: array<char>
    var cur: nat
    ghost const id: nat  // stands for the object's address

    ghost predicate Valid()
      reads this
    {
      cur <= data.Length
    }

    /** What has been appended since the last reset. */
    ghost function Used(): string
      requires Valid()
      reads this, data
    {
      data[..cur]
    }

    /** SIZE is the template argument; the array starts with whatever was in memory. */
    constructor (size: nat, ghost id: nat)
      ensures Valid() && fresh(data) && data.Length == size && Used() == [] && this.id == id
    {
      this.id := id;
      data := new char[size];
      cur := 0;
    }

    ghost function View(): Buf
      requires Valid()
      reads this, data
    {
      Buf(id, data[..cur], data[cur..])
    }

    function Avail(): nat
      requires Valid()
      reads this
    {
      data.Length - cur
    }

    /** A text that does not leave at least one byte free is dropped. */
    method Append(s: string)
      requires Valid()
      modifies this, data
      ensures Valid()
      ensures View() == BufAppend(old(View()), s)
    {
      if Avail() > |s| {
        ghost var before := data[..];
        var i := 0;
        while i < |s|
          invariant 0 <= i <= |s|
          invariant forall k :: 0 <= k < i ==> data[cur + k] == s[k]
          invariant forall k :: 0 <= k < data.Length && !(cur <= k < cur + i) ==> data[k] == before[k]
          modifies data
        {
          data[cur + i] := s[i];
          i := i + 1;
        }
        cur := cur + |s|;
        assert data[..cur] == before[..old(cur)] + s;
        assert data[cur..] == before[old(cur)..][|s|..];
      }
    }

    /** Moves the pointer over bytes written through it; the caller stays inside the array. */
    method Add(len: nat)
      requires Valid() && len <= Avail()
      modifies this
      ensures Valid() && cur == old(cur) + len
    {
      cur := cur + len;
    }

    method Reset()
      requires Valid()
      modifies this
      ensures Valid() && View() == BufReset(old(View()))
    {
      cur := 0;
      assert data[..] == data[0..];
    }
  }
}
