/** 32-bit unsigned arithmetic as the firmware's ALU performs it, and its relation to
    unbounded counters. */
module Words {
  const MOD: int := 0x1_0000_0000

  datatype Option<T> = None | Some(value: T)

  type uint16 = x: int | 0 <= x < 0x1_0000
  type uint32 = x: int | 0 <= x < 0x1_0000_0000

  /** Addition modulo 2^32. */
  function Add(a: uint32, b: uint32): uint32 {
    if a + b < MOD then a + b else a + b - MOD
  }

  /** Subtraction modulo 2^32. */
  function Sub(a: uint32, b: uint32): uint32 {
    if a >= b then a - b else a - b + MOD
  }

  function Min(a: int, b: int): int {
    if a < b then a else b
  }

  function Max(a: int, b: int): int {
    if a < b then b else a
  }

  /** The 32-bit word that stands for an unbounded counter. */
  function Wrap(n: int): uint32 {
    n % MOD
  }

  lemma WrapAdd(n: int, b: uint32)
    ensures Add(Wrap(n), b) == Wrap(n + b)
  {
  }

  lemma WrapMinus(n: int, b: uint32)
    ensures Sub(Wrap(n), b) == Wrap(n - b)
  {
  }

  /** The 32-bit difference of two counters less than 2^32 apart. */
  lemma WrapDiff(a: int, b: int)
    requires -MOD < a - b < MOD
    ensures Sub(Wrap(a), Wrap(b)) == if a >= b then a - b else a - b + MOD
  {
    assert a == MOD * (a / MOD) + Wrap(a);
    assert b == MOD * (b / MOD) + Wrap(b);
  }

  /** Wrapping is injective on counters less than 2^32 apart. */
  lemma WrapInjective(a: int, b: int)
    requires -MOD < a - b < MOD
    ensures Wrap(a) == Wrap(b) <==> a == b
  {
    WrapDiff(a, b);
  }
}
