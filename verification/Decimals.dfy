/** Signed decimal numerals and C's truncating division. */
module Decimals {
  function Abs(n: int): nat {
    if n < 0 then -n else n
  }

  /** C's `/` and `%` by ten, which round toward zero. */
  function TruncDiv10(n: int): (q: int)
    ensures Abs(q) == Abs(n) / 10 && (n >= 0 ==> q >= 0) && (n <= 0 ==> q <= 0)
  {
    if n >= 0 then n / 10 else -((-n) / 10)
  }

  function TruncMod10(n: int): (r: int)
    ensures n == TruncDiv10(n) * 10 + r
    ensures Abs(r) == Abs(n) % 10 && (n >= 0 ==> r >= 0) && (n <= 0 ==> r <= 0)
  {
    n - TruncDiv10(n) * 10
  }

  const DIGITS: string := "0123456789"

  function Numeral(n: nat): (s: string)
    ensures s != [] && forall i :: 0 <= i < |s| ==> s[i] in DIGITS
  {
    if n < 10 then [DIGITS[n]] else Numeral(n / 10) + [DIGITS[n % 10]]
  }

  /** The canonical decimal of an integer. */
  function Decimal(n: int): string {
    if n < 0 then ['-'] + Numeral(-n) else Numeral(n)
  }

  predicate IsDigit(c: char) {
    '0' <= c <= '9'
  }

  // ---------------------------------------------------------------- reading decimals back

  predicate AllDigits(s: string) {
    forall i :: 0 <= i < |s| ==> IsDigit(s[i])
  }

  function DigitValue(c: char): nat
    requires IsDigit(c)
  {
    c as int - '0' as int
  }

  function Value(s: string): (v: nat)
    requires AllDigits(s)
  {
    if s == [] then 0
    else
      var n := |s| - 1;
      Value(s[..n]) * 10 + DigitValue(s[n])
  }

  /** No leading zero, no sign on zero, at least one digit. */
  predicate Canonical(s: string) {
    && s != []
    && var digits := if s[0] == '-' then s[1..] else s;
    && digits != []
    && AllDigits(digits)
    && (digits[0] == '0' ==> |s| == 1)
  }

  function Parse(s: string): int
    requires Canonical(s)
  {
    if s[0] == '-' then 0 - Value(s[1..]) else Value(s)
  }

  lemma DigitIs(d: nat)
    requires d < 10
    ensures IsDigit(DIGITS[d]) && DigitValue(DIGITS[d]) == d
  {
  }

  lemma {:induction false} NumeralReadsBack(n: nat)
    ensures AllDigits(Numeral(n))
    ensures Value(Numeral(n)) == n
    ensures Numeral(n)[0] == '0' <==> n == 0
    ensures n < 10 <==> |Numeral(n)| == 1
  {
    DigitIs(n % 10);
    if n < 10 {
      assert [DIGITS[n]][..0] == [];
    } else {
      NumeralReadsBack(n / 10);
      assert Numeral(n)[..|Numeral(n)| - 1] == Numeral(n / 10);
    }
  }

  /** Every integer is read back from its decimal, which is canonical. */
  lemma DecimalReadsBack(n: int)
    ensures Canonical(Decimal(n)) && Parse(Decimal(n)) == n
  {
    NumeralReadsBack(Abs(n));
    if n < 0 {
      assert Decimal(n)[1..] == Numeral(-n);
    } else {
      assert Numeral(n)[0] != '-';
    }
  }

  lemma {:induction false} ValueIsPositive(s: string)
    requires s != [] && AllDigits(s)
    requires s[0] != '0'
    ensures Value(s) > 0
  {
    if |s| > 1 {
      ValueIsPositive(s[..|s| - 1]);
    } else {
      assert s[..0] == [];
    }
  }

  lemma LastDigitSplits(v: nat, d: nat)
    requires d < 10
    ensures (v * 10 + d) / 10 == v && (v * 10 + d) % 10 == d
  {
  }

  lemma DigitIsUnique(c: char)
    requires IsDigit(c)
    ensures DigitValue(c) < 10 && DIGITS[DigitValue(c)] == c
  {
  }

  lemma {:induction false} NumeralIsUnique(s: string)
    requires s != [] && AllDigits(s)
    requires s[0] == '0' ==> |s| == 1
    ensures Numeral(Value(s)) == s
  {
    var n := |s| - 1;
    DigitIsUnique(s[n]);
    assert s == s[..n] + [s[n]];
    if n == 0 {
      assert s[..0] == [];
    } else {
      NumeralIsUnique(s[..n]);
      ValueIsPositive(s[..n]);
      LastDigitSplits(Value(s[..n]), DigitValue(s[n]));
    }
  }

  /** A canonical text is the decimal of the integer it denotes, so the decimal is unique. */
  lemma DecimalIsUnique(s: string)
    requires Canonical(s)
    ensures Decimal(Parse(s)) == s
  {
    if s[0] == '-' {
      NumeralIsUnique(s[1..]);
      ValueIsPositive(s[1..]);
    } else {
      NumeralIsUnique(s);
    }
  }
}
