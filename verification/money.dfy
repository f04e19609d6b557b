/** Exact arithmetic for the storefront's two-decimal rounding
    `Math.round(x * 100) / 100`, used for cart totals, line prices and the
    average rating. `Math.round(y)` is `floor(y + 1/2)` (ECMA-262, section
    21.3.2.28: halves round towards +infinity). Amounts are exact `real`s,
    not IEEE-754 doubles. */
module Money {

  /** `Math.round`: the integer nearest to `y`, halves going up. */
  function JsRound(y: real): (n: int)
    ensures n as real - 0.5 <= y < n as real + 0.5
  {
    (y + 0.5).Floor
  }

  /** The characterisation above pins `Math.round` down: there is only one
      integer within half a unit (below inclusive, above exclusive). */
  lemma JsRoundUnique(y: real, m: int)
    requires m as real - 0.5 <= y < m as real + 0.5
    ensures JsRound(y) == m
  {
    var n := JsRound(y);
    assert n as real - 0.5 <= y < n as real + 0.5;
  }

  /** `Math.round(x * 100)`: `x` rounded to a whole number of cents. */
  function Cents(x: real): (c: int)
    ensures c as real - 0.5 <= x * 100.0 < c as real + 0.5
  {
    JsRound(x * 100.0)
  }

  /** `Math.round(x * 100) / 100`. */
  function Round2(x: real): (r: real)
    ensures r * 100.0 == Cents(x) as real
    ensures x - 0.005 < r <= x + 0.005
  {
    Cents(x) as real / 100.0
  }

  /** A whole number of cents. */
  predicate IsCentAmount(x: real)
  {
    x * 100.0 == (x * 100.0).Floor as real
  }

  lemma Round2IsCentAmount(x: real)
    ensures IsCentAmount(Round2(x))
  {
    assert Round2(x) * 100.0 == Cents(x) as real;
  }

  /** An amount already in whole cents is left alone by the rounding. */
  lemma Round2OfCentAmount(x: real)
    requires IsCentAmount(x)
    ensures Round2(x) == x
  {
    var k := (x * 100.0).Floor;
    JsRoundUnique(x * 100.0, k);
  }

  /** Rounding twice is rounding once. */
  lemma Round2Idempotent(x: real)
    ensures Round2(Round2(x)) == Round2(x)
  {
    Round2IsCentAmount(x);
    Round2OfCentAmount(Round2(x));
  }

  /** The rounding never reverses the order of two amounts. */
  lemma Round2Monotonic(x: real, y: real)
    requires x <= y
    ensures Round2(x) <= Round2(y)
  {
    assert Cents(x) <= Cents(y);
  }

  /** Zero rounds to zero. */
  lemma Round2Zero()
    ensures Round2(0.0) == 0.0
  {
    Round2OfCentAmount(0.0);
  }
}
