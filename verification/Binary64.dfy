/**
 * The binary64 arithmetic the validators lean on: the ceiling of a rounded quotient (js/core/validate.js:161) and the
 * running total of the chunk sizes (js/core/validate.js:251).
 *
 * Rounding is to a nearest finite double, as in section 4.3.1 of IEEE 754-2019.  Ties may go either way here, so what
 * is proved holds for ties to even.
 */
module Binary64 {
  import opened Chunker
  import opened Doubles
  import opened Json
  import opened Manifest
  import opened Numbers
  import opened Validate
  import opened Wrappers

  // ----- The nearest double -----

  ghost function Distance(x: real, y: real): real {
    if x < y then y - x else x - y
  }

  ghost predicate Nearest(x: real, q: real) {
    x in Held() && forall y :: y in Held() ==> Distance(x, q) <= Distance(y, q)
  }

  lemma {:induction false} ClosestOf(s: set<real>, q: real) returns (x: real)
    requires exists y :: y in s
    ensures x in s && forall y :: y in s ==> Distance(x, q) <= Distance(y, q)
    decreases |s|
  {
    var y :| y in s;
    x := y;
    if other :| other in s - {y} {
      var rest := ClosestOf(s - {y}, q);
      forall z | z in s ensures z == y || Distance(rest, q) <= Distance(z, q) {
        assert z == y || z in s - {y};
      }
      if Distance(rest, q) < Distance(y, q) {
        x := rest;
      }
    } else {
      assert forall z :: z in s ==> z == y || z in s - {y};
    }
  }

  /** Every quotient has a nearest double. */
  lemma NearestExists(q: real)
    ensures exists x :: Nearest(x, q)
  {
    assert Scaled(0, 0) in Held();
    var x := ClosestOf(Held(), q);
    assert Nearest(x, q);
  }

  // ----- A double close above an integer -----

  /** The step of `j` binary places. */
  ghost function Step(j: int): real {
    Power(-j)
  }

  lemma {:induction false} PowersCancel(j: nat)
    ensures Step(j) * Pow2(j) as real == 1.0
  {
    if j > 0 {
      PowersCancel(j - 1);
    }
  }

  /** The coarsest power of two that leaves a step from an integer closer to `r / b` above it than the integer is. */
  lemma {:induction false} FineStep(b: int, r: int, j: nat, scaled: int) returns (steps: nat)
    requires 0 < r < b && scaled == Pow2(j) * r && scaled > 0 && (j > 0 ==> scaled <= b)
    ensures b < 2 * (Pow2(steps) * r) && (steps > 0 ==> Pow2(steps) * r <= b)
    decreases b - scaled
  {
    if b < 2 * scaled {
      steps := j;
    } else {
      DoubleProduct(Pow2(j), r);
      steps := FineStep(b, r, j + 1, 2 * scaled);
    }
  }

  lemma DoubleProduct(x: int, y: int)
    ensures (2 * x) * y == 2 * (x * y)
  {
  }

  lemma TwoTo53()
    ensures Pow2(53) == EXACT
  {
    assert Pow2(13) == 8192;
    assert Pow2(23) == 1024 * Pow2(13);
    assert Pow2(33) == 1024 * Pow2(23);
    assert Pow2(43) == 1024 * Pow2(33);
    assert Pow2(53) == 1024 * Pow2(43);
  }

  lemma StepsAreFew(b: int, r: int, steps: nat)
    requires 0 < r < b < EXACT && (steps > 0 ==> Pow2(steps) * r <= b)
    ensures steps < 53
  {
    TwoTo53();
    AtLeast(Pow2(steps), r);
    if steps >= 53 {
      Pow2Grows(53, steps);
    }
  }

  lemma ScaledStep(significand: int, steps: int)
    requires 0 <= steps < 53 && 0 <= significand < EXACT
    ensures significand as real * Step(steps) in Held()
  {
    ScaledIsDouble(significand, -steps);
    assert Scaled(significand, -steps) == significand as real * Step(steps);
  }

  lemma Significand(k: nat, b: int, r: int, p: int, w: real) returns (n: int)
    requires 0 < r < b < EXACT && k * b + r < EXACT && p > 0 && (p > 1 ==> p * r <= b) && w * p as real == 1.0
    ensures 0 <= n < EXACT && n as real * w == k as real + w
  {
    SignificandFits(k, b, r, p);
    n := k * p + 1;
    Shift(k, p, w, n);
  }

  lemma SignificandFits(k: nat, b: int, r: int, p: int)
    requires 0 < r < b < EXACT && k * b + r < EXACT && p > 0 && (p > 1 ==> p * r <= b)
    ensures 0 <= k * p + 1 < EXACT
  {
    AtLeast(p, r);
    Below(k, p, b);
  }

  lemma AtLeast(p: int, r: int)
    requires p > 0 && r > 0
    ensures p <= p * r
  {
  }

  lemma Below(k: nat, p: int, b: int)
    requires 0 <= p <= b
    ensures 0 <= k * p <= k * b
  {
  }

  lemma Shift(k: nat, p: int, w: real, significand: int)
    requires w * p as real == 1.0 && significand == k * p + 1
    ensures significand as real * w == k as real + w
  {
    assert significand as real == k as real * p as real + 1.0;
  }

  // ----- The ceiling of a rounded quotient -----

  function CeilOf(x: real): int {
    -(-x).Floor
  }

  lemma FinePower(b: nat, r: int) returns (steps: int, p: int, w: real)
    requires 0 < r < b < EXACT
    ensures 0 <= steps < 53 && w == Step(steps) && w > 0.0 && w * p as real == 1.0
    ensures p > 0 && b < 2 * (p * r) && (p > 1 ==> p * r <= b)
  {
    steps := FineStep(b, r, 0, r);
    StepsAreFew(b, r, steps);
    PowersCancel(steps);
    p, w := Pow2(steps), Step(steps);
  }

  /** A double `k + w` with `w` less than twice `r / b`. */
  lemma FineDouble(k: nat, b: nat, r: int) returns (p: int, w: real)
    requires 0 < r < b < EXACT && k * b + r < EXACT
    ensures w > 0.0 && w * p as real == 1.0 && b < 2 * (p * r) && k as real + w in Held()
  {
    var steps;
    steps, p, w := FinePower(b, r);
    var significand := Significand(k, b, r, p, w);
    ScaledStep(significand, steps);
  }

  /** With `r` left over, the integer below is not the nearest double to the quotient: the step above it is closer. */
  lemma NotRoundedDown(a: nat, b: nat, k: nat, r: int, q: real)
    requires 0 < r < b < EXACT && a < EXACT && a == k * b + r && q * b as real == a as real
    ensures !Nearest(k as real, q)
  {
    var p, w := FineDouble(k, b, r);
    StepIsCloser(k, b, r, q, p, w);
  }

  lemma StepIsCloser(k: nat, b: nat, r: int, q: real, p: int, w: real)
    requires 0 < r < b && q * b as real == (k * b + r) as real
    requires w > 0.0 && w * p as real == 1.0 && b < 2 * (p * r)
    ensures Distance(k as real + w, q) < Distance(k as real, q)
  {
    var over := q - k as real;
    Remainder(k, b, r, q);
    Doubled(b, r, p, w);
    Compare(over, w, b as real, r as real);
  }

  lemma Remainder(k: nat, b: nat, r: int, q: real)
    requires q * b as real == (k * b + r) as real
    ensures (q - k as real) * b as real == r as real
  {
    assert (k * b + r) as real == k as real * b as real + r as real;
  }

  lemma Doubled(b: nat, r: int, p: int, w: real)
    requires w > 0.0 && w * p as real == 1.0 && b < 2 * (p * r)
    ensures w * b as real < 2.0 * r as real
  {
    var s := 2 * (p * r);
    assert s as real == 2.0 * (p as real * r as real);
    Scale(w, b as real, s as real);
    assert w * s as real == 2.0 * (w * p as real) * r as real;
  }

  lemma Scale(w: real, x: real, y: real)
    requires w > 0.0 && x < y
    ensures w * x < w * y
  {
  }

  lemma Compare(over: real, w: real, b: real, r: real)
    requires b > 0.0 && r > 0.0 && over * b == r && w > 0.0 && w * b < 2.0 * r
    ensures over > 0.0 && w < 2.0 * over
  {
    Signs(over, b);
    Signs(2.0 * over - w, b);
    assert (2.0 * over - w) * b == 2.0 * (over * b) - w * b;
  }

  lemma Signs(x: real, y: real)
    requires y > 0.0
    ensures (x > 0.0 <==> x * y > 0.0) && (x < 0.0 <==> x * y < 0.0)
  {
  }

  /**
   * What the validator computes with doubles is the integer ceiling: for all safe integers, however the quotient is
   * rounded to a nearest double, its ceiling is that of the exact quotient.
   */
  lemma CeilOfQuotient(a: nat, b: nat, x: real)
    requires a < EXACT && 0 < b < EXACT && Nearest(x, a as real / b as real)
    ensures CeilOf(x) == CeilDiv(a, b)
  {
    var k, r, q := a / b, a % b, a as real / b as real;
    QuotientBounds(a, b, k, r, q);
    IntegersAreDoubles(k);
    if r != 0 {
      IntegersAreDoubles(k + 1);
      NotRoundedDown(a, b, k, r, q);
    }
    CeilingBetween(x, q, k, r);
  }

  lemma QuotientBounds(a: nat, b: nat, k: nat, r: nat, q: real)
    requires a < EXACT && 0 < b && k == a / b && r == a % b && q == a as real / b as real
    ensures a == k * b + r && q * b as real == a as real && k < EXACT
    ensures if r == 0 then q == k as real else b > 1 && k + 1 < EXACT && k as real < q < (k + 1) as real
    ensures CeilDiv(a, b) == if r == 0 then k else k + 1
  {
    AtLeastProduct(k, b);
    CeilDivOfParts(b, k, r);
    QuotientOfReals(a, b, q);
    FractionBounds(a, b, k, r, q);
  }

  lemma FractionBounds(a: nat, b: nat, k: nat, r: nat, q: real)
    requires r < b && a == k * b + r && q * b as real == a as real
    ensures if r == 0 then q == k as real else k as real < q < (k + 1) as real
  {
    Remainder(k, b, r, q);
    Between(q - k as real, b as real, r as real);
  }

  lemma AtLeastProduct(k: nat, b: nat)
    requires b > 0
    ensures k <= k * b && (b > 1 && k > 0 ==> k + 1 <= k * b)
  {
  }

  lemma QuotientOfReals(a: nat, b: nat, q: real)
    requires b > 0 && q == a as real / b as real
    ensures q * b as real == a as real
  {
  }

  lemma CeilDivOfParts(b: nat, k: nat, r: nat)
    requires r < b
    ensures CeilDiv(k * b + r, b) == if r == 0 then k else k + 1
  {
    if r == 0 {
      DivisionIsUnique(k * b + b - 1, b, k, b - 1);
    } else {
      DivisionIsUnique(k * b + r + b - 1, b, k + 1, r - 1);
    }
  }

  lemma DivisionIsUnique(n: nat, b: nat, k: nat, r: nat)
    requires r < b && n == k * b + r
    ensures n / b == k
  {
    var d := n / b - k;
    assert d * b == (n / b) * b - k * b;
    assert n == (n / b) * b + n % b;
    Multiple(d, b);
  }

  lemma Multiple(d: int, b: int)
    requires b > 0
    ensures (d >= 1 ==> d * b >= b) && (d <= -1 ==> d * b <= -b)
  {
  }

  lemma Between(over: real, b: real, r: real)
    requires b > 0.0 && 0.0 <= r < b && over * b == r
    ensures 0.0 <= over < 1.0
    ensures over == 0.0 <==> r == 0.0
  {
    Signs(over, b);
    BelowOne(over, b, r);
  }

  lemma BelowOne(x: real, y: real, z: real)
    requires y > 0.0 && x * y == z && z < y
    ensures x < 1.0
  {
    var under := x - 1.0;
    Signs(under, y);
    assert under * y == x * y - 1.0 * y;
  }

  lemma CeilingBetween(x: real, q: real, k: nat, r: nat)
    requires Nearest(x, q) && k as real in Held()
    requires if r == 0 then q == k as real
      else k as real < q < (k + 1) as real && (k + 1) as real in Held() && !Nearest(k as real, q)
    ensures CeilOf(x) == if r == 0 then k else k + 1
  {
  }

  /** So the header check, done in doubles, is the one on integers that the model of the validator makes. */
  lemma ComputedCountIsExact(fileSize: nat, chunkSize: nat, x: real)
    requires fileSize < EXACT && 0 < chunkSize < EXACT && Nearest(x, fileSize as real / chunkSize as real)
    ensures (if CeilOf(x) > 1 then CeilOf(x) else 1) == ChunkCount(fileSize, chunkSize)
  {
    CeilOfQuotient(fileSize, chunkSize, x);
    CountFromCeiling(fileSize, chunkSize, CeilOf(x));
  }

  lemma CountFromCeiling(fileSize: nat, chunkSize: nat, ceiling: int)
    requires 0 < chunkSize && ceiling == CeilDiv(fileSize, chunkSize)
    ensures (if ceiling > 1 then ceiling else 1) == ChunkCount(fileSize, chunkSize)
  {
    if fileSize == 0 {
      CeilDivOfParts(chunkSize, 0, 0);
    } else {
      CountIsPositive(fileSize, chunkSize);
    }
  }

  // ----- The running total -----

  lemma {:induction false} TotalWithin(chunks: seq<Entry>, chunkSize: nat)
    requires forall i :: 0 <= i < |chunks| ==> chunks[i].plainSize <= chunkSize
    ensures PlainTotal(chunks) <= |chunks| * chunkSize
  {
    if chunks != [] {
      TotalWithin(chunks[..|chunks| - 1], chunkSize);
      assert |chunks| * chunkSize == (|chunks| - 1) * chunkSize + chunkSize;
    }
  }

  lemma CountTimesSize(fileSize: nat, chunkSize: nat)
    requires chunkSize > 0
    ensures ChunkCount(fileSize, chunkSize) * chunkSize <= fileSize + chunkSize
  {
    var n := fileSize + chunkSize - 1;
    assert (n / chunkSize) * chunkSize + n % chunkSize == n;
  }

  lemma NearestToDouble(x: real, q: real)
    requires q in Held() && Nearest(x, q)
    ensures x == q
  {
    assert Distance(x, q) <= Distance(q, q);
  }

  /** Under limits as low as the defaults, every sum the table check forms is a double and so is held exactly. */
  lemma RunningTotalIsExact(items: seq<Json>, chunks: seq<Entry>, h: Header, limits: Limits, i: nat, x: real)
    requires limits.maxFileSize + limits.maxChunkSize < EXACT
    requires ShapeWithin(h.totalChunks, h.fileSize, h.chunkSize, limits) && |chunks| <= h.totalChunks
    requires ParseTo(items, chunks, h, limits) && i <= |chunks| && Nearest(x, PlainTotal(chunks[..i]) as real)
    ensures x == PlainTotal(chunks[..i]) as real
  {
    forall k | 0 <= k < i ensures chunks[..i][k].plainSize <= h.chunkSize {
      assert ValidateEntry(items[k], h.totalChunks, h.chunkSize, limits) == Ok(chunks[k]);
    }
    TotalWithin(chunks[..i], h.chunkSize);
    CountTimesSize(h.fileSize, h.chunkSize);
    Below(h.chunkSize, i, h.totalChunks);
    IntegersAreDoubles(PlainTotal(chunks[..i]));
    NearestToDouble(x, PlainTotal(chunks[..i]) as real);
  }
}
