/** C++ integer conversions and wrap-around, on unbounded integers. */
module MachineIntegers {
  const UINT32: nat := 0x1_0000_0000
  const UINT64: nat := 0x1_0000_0000_0000_0000
  const INT_LIMIT: nat := 0x8000_0000
  const SIZE_LIMIT: nat := 0x8000_0000_0000_0000  // no vector is this long

  /** A signed value converted to a 64-bit unsigned type. */
  function AsUnsigned(d: int): int {
    if d >= 0 then d else d + UINT64
  }

  /** The `int` that a `size_t` argument becomes: its low 32 bits, read as signed. */
  function AsInt(len: nat): int {
    var low := len % UINT32;
    if low < INT_LIMIT then low else low - UINT32
  }

  /** `++` and `--` on an `unsigned int`. */
  function Increment(n: nat): nat {
    if n + 1 == UINT32 then 0 else n + 1
  }

  function Decrement(n: nat): nat {
    if n == 0 then UINT32 - 1 else n - 1
  }

  /** Two values that agree modulo m. */
  predicate Congruent(a: int, b: int, m: nat)
    requires m > 0
  {
    (a - b) % m == 0
  }

  /** Each conversion gives the value in the range of its type that agrees with the argument modulo
      the size of the type. */
  lemma ConversionsAreExact(d: int, n: nat)
    ensures -0x1_0000_0000_0000_0000 <= d < 0x1_0000_0000_0000_0000 ==>
              0 <= AsUnsigned(d) < 0x1_0000_0000_0000_0000 && Congruent(AsUnsigned(d), d, 0x1_0000_0000_0000_0000)
    ensures -0x8000_0000 <= AsInt(n) < 0x8000_0000 && Congruent(n, AsInt(n), 0x1_0000_0000)
    ensures n < 0x1_0000_0000 ==> Increment(n) < 0x1_0000_0000 && Congruent(n + 1, Increment(n), 0x1_0000_0000)
    ensures n < 0x1_0000_0000 ==> Decrement(n) < 0x1_0000_0000 && Congruent(n - 1, Decrement(n), 0x1_0000_0000)
  {
  }
}
