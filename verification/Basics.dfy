/** Types and numbers that several models share. */
module Basics {

  datatype Option<+T> = None | Some(value: T)

  type byte = x: int | 0 <= x < 256

  const TWO32: nat := 0x1_0000_0000
  const TWO64: nat := 0x1_0000_0000_0000_0000

  /** What 64-bit arithmetic makes of a number. */
  function Wrap64(x: int): (r: nat)
    ensures r < TWO64 && (0 <= x < TWO64 ==> r == x)
    ensures TWO64 <= x < 2 * TWO64 ==> r == x - TWO64
    ensures x < 0 <= x + TWO64 ==> r == x + TWO64
  {
    x % 0x1_0000_0000_0000_0000
  }

  /** Wrapping a part of a sum first makes no difference. */
  lemma WrapSum(a: int, b: int)
    ensures Wrap64(Wrap64(a) + b) == Wrap64(a + b)
  {
    var q := a / 0x1_0000_0000_0000_0000;
    assert a == q * 0x1_0000_0000_0000_0000 + Wrap64(a);
  }

  function Min(a: int, b: int): int {
    if a <= b then a else b
  }
}
