/** Exact money arithmetic.

    Every amount is an integer number of 1e-8 units, the precision of the stored
    decimals; a cent is 1_000_000 units.  Quantising to cents rounds half away from zero. */
module Money {

  const CENT: int := 1_000_000

  function Abs(x: int): int { if x >= 0 then x else -x }

  function Min(x: int, y: int): int { if x <= y then x else y }

  function Max(x: int, y: int): int { if x >= y then x else y }

  /** The integer nearest to n / d; a tie goes away from zero. */
  function RoundHalfUp(n: int, d: int): (r: int)
    requires d > 0
  {
    if n >= 0 then (2 * n + d) / (2 * d) else -((-2 * n + d) / (2 * d))
  }

  predicate IsCents(u: int) { u % CENT == 0 }

  /** `quantize("0.01", ROUND_HALF_UP)` on an amount in units. */
  function ToCents(u: int): (c: int)
    ensures IsCents(c)
    ensures 2 * Abs(c - u) <= CENT
    ensures IsCents(u) ==> c == u
    ensures u == 0 ==> c == 0
  {
    RoundHalfUp(u, CENT) * CENT
  }

  /** `quantize("0.01", ROUND_HALF_UP)` on the exact rational n / d. */
  function QuotientToCents(n: int, d: int): (c: int)
    requires d > 0
    ensures IsCents(c)
  {
    RoundHalfUp(n, d * CENT) * CENT
  }

  /** Rounding is the nearest integer, and the only one that also breaks ties away from zero. */
  lemma RoundHalfUpIsNearest(n: int, d: int, r: int)
    requires d > 0
    ensures r == RoundHalfUp(n, d) <==>
            2 * Abs(r * d - n) < d || (2 * Abs(r * d - n) == d && Abs(r * d) > Abs(n))
  {
    if n >= 0 {
      var q := (2 * n + d) / (2 * d);
      FloorBounds(2 * n + d, 2 * d);
      assert q * (2 * d) == 2 * (q * d);
      NearestUnique(n, d, q, r);
    } else {
      var q := (-2 * n + d) / (2 * d);
      FloorBounds(-2 * n + d, 2 * d);
      assert q * (2 * d) == 2 * (q * d);
      assert -r * d == -(r * d);
      NearestUnique(-n, d, q, -r);
    }
  }

  /** v is num / den to the nearest cent, a tie away from zero. */
  predicate NearestCents(v: int, num: int, den: int) {
    IsCents(v) && (2 * Abs(v * den - num) < den * CENT || (2 * Abs(v * den - num) == den * CENT && Abs(v * den) > Abs(num)))
  }

  /** Quantising a fraction gives the nearest cents and nothing else does. */
  lemma QuotientIsNearest(num: int, den: int, v: int)
    requires den > 0
    ensures v == QuotientToCents(num, den) <==> NearestCents(v, num, den)
  {
    if IsCents(v) {
      var r := v / CENT;
      assert v == r * CENT;
      assert r * (den * CENT) == v * den;
      RoundHalfUpIsNearest(num, den * CENT, r);
    }
    hide RoundHalfUp;
  }

  lemma CentsAreNearest(u: int, v: int)
    ensures v == ToCents(u) <==> NearestCents(v, u, 1)
  {
    QuotientIsNearest(u, 1, v);
    hide RoundHalfUp;
  }

  lemma FloorBounds(x: int, y: int)
    requires y > 0
    ensures 0 <= x - x / y * y < y
  {
  }

  lemma CentsAdd(a: int, b: int)
    requires IsCents(a) && IsCents(b)
    ensures IsCents(a + b) && IsCents(a - b)
  {
  }

  /** q is the floor of (2n + d) / 2d, that is n / d rounded with ties upwards. */
  lemma NearestUnique(n: nat, d: int, q: int, s: int)
    requires d > 0
    requires 0 <= 2 * n + d - 2 * (q * d) < 2 * d
    ensures s == q <==> 2 * Abs(s * d - n) < d || (2 * Abs(s * d - n) == d && Abs(s * d) > n)
  {
    Separated(s, q, d);
  }

  /** Distinct multiples of d are at least d apart. */
  lemma Separated(a: int, b: int, d: int)
    requires d > 0
    ensures a < b ==> a * d + d <= b * d
    ensures a > b ==> b * d + d <= a * d
  {
    if a < b {
      MulMonotone(a + 1, b, d);
    } else if a > b {
      MulMonotone(b + 1, a, d);
    }
  }

  lemma MulMonotone(a: int, b: int, d: int)
    requires a <= b && d >= 0
    ensures a * d <= b * d
    ensures (a + 1) * d == a * d + d
  {
  }

  lemma RoundHalfUpBound(n: int, d: int)
    requires d > 0
    ensures 2 * Abs(RoundHalfUp(n, d) * d - n) <= d
  {
  }

  lemma RoundHalfUpOdd(n: int, d: int)
    requires d > 0
    ensures RoundHalfUp(-n, d) == -RoundHalfUp(n, d)
  {
  }

  lemma RoundHalfUpZero(d: int)
    requires d > 0
    ensures RoundHalfUp(0, d) == 0
  {
  }

  lemma RoundHalfUpSign(n: int, d: int)
    requires d > 0
    ensures n >= 0 ==> RoundHalfUp(n, d) >= 0
    ensures n <= 0 ==> RoundHalfUp(n, d) <= 0
  {
  }
}
