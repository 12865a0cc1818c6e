/** Small arithmetic that several parts of the program share. */
module Numbers {
  function Min(a: int, b: int): (m: int)
    ensures m <= a && m <= b && (m == a || m == b)
  {
    if a < b then a else b
  }

  /** How many transfers run at once: `Math.max(1, Math.min(concurrency, n))`. */
  function Width(concurrency: int, n: nat): nat {
    if Min(concurrency, n) < 1 then 1 else Min(concurrency, n)
  }

  function Pow2(n: nat): (p: nat)
    ensures p > 0
  {
    if n == 0 then 1 else 2 * Pow2(n - 1)
  }

  lemma Pow2Grows(a: nat, b: nat)
    requires a <= b
    ensures Pow2(a) <= Pow2(b)
    decreases b - a
  {
    if a < b {
      Pow2Grows(a + 1, b);
    }
  }
}
