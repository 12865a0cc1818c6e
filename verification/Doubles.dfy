/** The numbers JavaScript has: finite binary64 values, as in section 3.3 of IEEE 754-2019. */
module Doubles {
  /** Every integer up to here, 2^53, is a double. */
  const EXACT: int := 0x20_0000_0000_0000

  ghost function Power(e: int): (p: real)
    ensures p > 0.0
    decreases if e < 0 then -e else e
  {
    if e == 0 then 1.0 else if e > 0 then 2.0 * Power(e - 1) else Power(e + 1) / 2.0
  }

  ghost function Scaled(significand: int, exponent: int): real {
    significand as real * Power(exponent)
  }

  /** All that a number can hold. */
  ghost function Held(): set<real> {
    set m: int, e: int | -EXACT < m < EXACT && -1074 <= e <= 971 :: Scaled(m, e)
  }

  lemma ScaledIsDouble(significand: int, exponent: int)
    requires -EXACT < significand < EXACT && -1074 <= exponent <= 971
    ensures Scaled(significand, exponent) in Held()
  {
  }

  lemma IntegersAreDoubles(k: int)
    requires -EXACT < k < EXACT
    ensures k as real in Held()
  {
    assert Scaled(k, 0) == k as real;
  }
}
