/**
 * The C integer types of the firmware and the one C operator whose meaning
 * differs from Dafny's: integer division, which C truncates toward zero
 * while Dafny's `/` is Euclidean.
 */
module CInt {

  type u8 = x: int | 0 <= x < 0x100
  type u16 = x: int | 0 <= x < 0x1_0000
  type u32 = x: int | 0 <= x < 0x1_0000_0000
  type i16 = x: int | -0x8000 <= x < 0x8000
  type i32 = x: int | -0x8000_0000 <= x < 0x8000_0000

  /** Mathematical absolute value (what `abs` returns when it does not overflow). */
  function Abs(a: int): (r: nat)
    ensures r == a || r == -a
  {
    if a < 0 then -a else a
  }

  /**
   * C's `a / b` for a positive divisor: the quotient truncated toward zero,
   * so that the remainder `a - b * q` has the sign of the dividend and is
   * smaller than `b` in magnitude (C11, section 6.5.5 paragraph 6).
   */
  function CDiv(a: int, b: int): (q: int)
    requires b > 0
    ensures 0 <= a ==> 0 <= a - b * q < b
    ensures a < 0 ==> -b < a - b * q <= 0
    ensures (a < 0 ==> q <= 0) && (0 <= a ==> 0 <= q)
    ensures Abs(q) == Abs(a) / b
  {
    DivBounds(Abs(a), b);
    if a >= 0 then
      a / b
    else
      var m := (-a) / b;
      assert b * (-m) == -(b * m);
      -m
  }

  /** C rounds toward zero where Dafny rounds down: (-1500) / 1000 is -1 in C. */
  lemma CDivDiffersFromEuclid()
    ensures CDiv(-1500, 1000) == -1 && -1500 / 1000 == -2
    ensures CDiv(-5, 10) == 0 && -5 / 10 == -1
  {
  }

  lemma DivBounds(a: nat, b: int)
    requires b > 0
    ensures 0 <= a / b && 0 <= a - b * (a / b) < b
  {
  }
}
