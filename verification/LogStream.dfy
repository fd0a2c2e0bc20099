/** Printing integers into the small log buffer (src/logger/LogStream.cc). */
module LogStreams {
  import opened Decimals
  import opened FixedBuffers

  const MAX_NUMERIC_SIZE: nat := 48

  /** The table of digits around zero: entry 9 + r is the digit of remainder r, -9 <= r <= 9. */
  const SIGNED_DIGITS: string := "9876543210123456789"

  function PowerOf10(k: nat): nat {
    if k == 0 then 1 else 10 * PowerOf10(k - 1)
  }

  function Backwards(s: string): string {
    seq(|s|, i requires 0 <= i < |s| => s[|s| - 1 - i])
  }

  lemma TableHoldsDigits(r: int)
    requires -9 <= r <= 9
    ensures SIGNED_DIGITS[9 + r] == DIGITS[Abs(r)]
  {
  }

  lemma BackwardsOfLonger(s: string, c: char)
    ensures Backwards(s + [c]) == [c] + Backwards(s)
  {
  }

  lemma SixtyFourBits()
    ensures PowerOf10(20) > 0x1_0000_0000_0000_0000
  {
    assert PowerOf10(5) == 100000;
    assert PowerOf10(10) == 10000000000 by { assert PowerOf10(8) == 100000000; }
    assert PowerOf10(15) == 1000000000000000 by { assert PowerOf10(13) == 10000000000000; }
    assert PowerOf10(18) == 1000000000000000000;
  }

  /** s with the places from first to last exchanged, as far as the walk has come from both ends. */
  ghost function Mirrored(s: string, first: nat, last: nat, i: nat): string
    requires first <= i <= last <= |s|
  {
    seq(|s|, k requires 0 <= k < |s| =>
      if first <= k < i || first + last - i <= k < last then s[first + last - 1 - k] else s[k])
  }

  lemma MirroredIsBackwards(s: string, first: nat, last: nat, i: nat)
    requires first <= i <= last <= |s| && first + last - i <= i + 1
    ensures var t := Mirrored(s, first, last, i);
            && t[..first] == s[..first] && t[last..] == s[last..]
            && t[first..last] == Backwards(s[first..last])
  {
  }

  class LogStream {
    const buffer: FixedBuffer

    ghost predicate Valid()
      reads this, buffer
    {
      buffer.Valid()
    }

    constructor ()
      ensures Valid() && fresh(buffer) && fresh(buffer.data)
      ensures buffer.Used() == [] && buffer.data.Length == SMALL_BUFFER
    {
      buffer := new FixedBuffer(SMALL_BUFFER, 0);
    }

    /** The do-while loop: least significant digit first, without ever negating the number. */
    method WriteDigits(n: int) returns (cur: nat)
      requires Valid() && buffer.Avail() >= MAX_NUMERIC_SIZE
      requires -0x8000_0000_0000_0000 <= n < 0x1_0000_0000_0000_0000
      modifies buffer.data
      ensures buffer.cur < cur <= buffer.cur + 20
      ensures buffer.data[..buffer.cur] == old(buffer.data[..buffer.cur])
      ensures Backwards(buffer.data[buffer.cur..cur]) == Numeral(Abs(n))
    {
      var data, start, num := buffer.data, buffer.cur, n;
      SixtyFourBits();
      cur := start;
      var more := true;
      while more
        invariant start <= cur <= start + 20 && (more ==> cur < start + 20)
        invariant !more ==> start < cur && num == 0
        invariant Abs(num) < PowerOf10(start + 20 - cur)
        invariant cur == start ==> num == n
        invariant cur > start && more ==> num != 0
        invariant data[..start] == old(data[..start])
        invariant Numeral(Abs(n)) ==
          if more then (Numeral(Abs(num)) + Backwards(data[start..cur])) else Backwards(data[start..cur])
        decreases more, Abs(num)
      {
        var remainder := TruncMod10(num);
        TableHoldsDigits(remainder);
        ghost var done, before := data[start..cur], num;
        data[cur] := SIGNED_DIGITS[9 + remainder];
        cur := cur + 1;
        assert data[start..cur] == done + [data[cur - 1]];
        BackwardsOfLonger(done, data[cur - 1]);
        num := TruncDiv10(num);
        more := num != 0;
        assert more <==> Abs(before) >= 10;
      }
    }

    /** std::reverse between two pointers. */
    method Reverse(first: nat, last: nat)
      requires Valid() && first <= last <= buffer.data.Length
      modifies buffer.data
      ensures buffer.data[..first] == old(buffer.data[..first])
      ensures buffer.data[first..last] == Backwards(old(buffer.data[first..last]))
      ensures buffer.data[last..] == old(buffer.data[last..])
    {
      var data := buffer.data;
      ghost var before := data[..];
      var i, j := first, last;
      while i + 1 < j
        invariant first <= i <= j <= last && i - first == last - j
        invariant data[..] == Mirrored(before, first, last, i)
      {
        j := j - 1;
        data[i], data[j] := data[j], data[i];
        i := i + 1;
      }
      MirroredIsBackwards(before, first, last, i);
    }

    /** Appends the canonical decimal of any 64-bit integer, when at least 48 bytes are free;
        the sign, the digits and the terminator always stay inside those bytes. */
    method FormatInteger(num: int)
      requires Valid() && -0x8000_0000_0000_0000 <= num < 0x1_0000_0000_0000_0000
      modifies buffer, buffer.data
      ensures Valid()
      ensures old(buffer.Avail()) < MAX_NUMERIC_SIZE ==> buffer.Used() == old(buffer.Used())
      ensures old(buffer.Avail()) >= MAX_NUMERIC_SIZE ==>
        && buffer.Used() == old(buffer.Used()) + Decimal(num)
        && buffer.cur < old(buffer.cur) + MAX_NUMERIC_SIZE
        && buffer.data[buffer.cur] == '\0'
    {
      if buffer.Avail() >= MAX_NUMERIC_SIZE {
        var start := buffer.cur;
        var cur := WriteDigits(num);
        ghost var digits := buffer.data[start..cur];
        if num < 0 {
          buffer.data[cur] := '-';
          cur := cur + 1;
          assert buffer.data[start..cur] == digits + ['-'];
          BackwardsOfLonger(digits, '-');
        }
        assert Backwards(buffer.data[start..cur]) == Decimal(num);
        buffer.data[cur] := '\0';
        assert Backwards(buffer.data[start..cur]) == Decimal(num);
        Reverse(start, cur);
        assert buffer.data[cur] == buffer.data[cur..][0];
        buffer.Add(cur - start);
        assert buffer.data[..cur] == buffer.data[..start] + buffer.data[start..cur];
      }
    }
  }
}
