/** What the other modules share: optional values, 64-bit arithmetic, the lesser and greater of two numbers. */
module Basics {

  datatype Option<T> = None | Some(value: T)

  const MAX_UINT64 := 0xffff_ffff_ffff_ffff

  /** Arithmetic modulo 2^64. */
  function Wrap(x: int): nat { if 0 <= x <= MAX_UINT64 then x else x % (MAX_UINT64 + 1) }

  /** The conversion of an unsigned 64-bit number to a signed one. */
  function Signed(x: nat): int
    requires x <= MAX_UINT64
  {
    if x < 0x8000_0000_0000_0000 then x else x - (MAX_UINT64 + 1)
  }

  function Lesser(a: nat, b: nat): nat { if a < b then a else b }

  function Greater(a: nat, b: nat): nat { if a > b then a else b }

  lemma SubsetSize<T>(a: set<T>, b: set<T>)
    requires a <= b
    ensures |a| <= |b|
  {
    assert b == a + (b - a);
  }
}
