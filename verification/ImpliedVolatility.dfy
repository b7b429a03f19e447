/**
 The volatility that reproduces a quoted call price: sixty bisection steps between 1% and
 500%. The Black-Scholes price is any strictly increasing function of the volatility.
 */
module ImpliedVolatility {
  import opened Wrappers

  const LOW := 0.01
  const HIGH := 5.0
  const STEPS: nat := 60

  ghost predicate IsIncreasing(price: real -> real) {
    forall v, w :: v < w ==> price(v) < price(w)
  }

  /** The width of the bracket after `n` steps. */
  function Width(n: nat): real {
    if n == 0 then HIGH - LOW else Width(n - 1) / 2.0
  }

  /** What each step keeps: the quote is above the price at `low` and at most the price at `high`. */
  ghost predicate IsBracket(low: real, high: real, quote: real, price: real -> real) {
    LOW <= low < high <= HIGH && price(low) < quote <= price(high)
  }

  /**
   A volatility is found exactly when all inputs are positive and the quote lies strictly between the prices at both ends. It is
   the middle of a bracket halved sixty times, and at most half of that bracket away from any volatility that reproduces the quote.
   */
  method ImpliedVol(quote: real, spot: real, strike: real, years: real, price: real -> real) returns (vol: Option<real>)
    requires IsIncreasing(price)
    ensures vol.Some? <==> quote > 0.0 && years > 0.0 && spot > 0.0 && strike > 0.0 && price(LOW) < quote < price(HIGH)
    ensures vol.Some? ==> exists low, high :: IsBracket(low, high, quote, price) && high - low == Width(STEPS)
                                             && vol.value == (low + high) / 2.0
    ensures forall root :: vol.Some? && price(root) == quote ==> -Width(STEPS + 1) <= vol.value - root <= Width(STEPS + 1)
  {
    if quote <= 0.0 || years <= 0.0 || spot <= 0.0 || strike <= 0.0 || !(price(LOW) < quote < price(HIGH)) {
      return None;
    }
    var low, high := LOW, HIGH;
    for n := 0 to STEPS
      invariant IsBracket(low, high, quote, price)
      invariant high - low == Width(n)
    {
      var mid := (low + high) / 2.0;
      if price(mid) < quote {
        low := mid;
      } else {
        high := mid;
      }
    }
    vol := Some((low + high) / 2.0);
    forall root | price(root) == quote ensures -Width(STEPS + 1) <= vol.value - root <= Width(STEPS + 1) {
      RootLiesInBracket(low, high, quote, price, root);
    }
  }

  lemma RootLiesInBracket(low: real, high: real, quote: real, price: real -> real, root: real)
    requires IsIncreasing(price) && IsBracket(low, high, quote, price) && price(root) == quote
    ensures low < root <= high && -(high - low) / 2.0 <= (low + high) / 2.0 - root <= (high - low) / 2.0
  {
  }

  // ---- how narrow the last bracket is

  function Pow2(n: nat): int {
    if n == 0 then 1 else 2 * Pow2(n - 1)
  }

  lemma {:induction false} WidthIsHalvedEachStep(n: nat)
    ensures Width(n) * Pow2(n) as real == 4.99
  {
    if n > 0 {
      WidthIsHalvedEachStep(n - 1);
      assert Width(n) * (2 * Pow2(n - 1)) as real == Width(n - 1) * Pow2(n - 1) as real;
    }
  }

  lemma {:induction false} Pow2Adds(m: nat, n: nat)
    ensures Pow2(m + n) == Pow2(m) * Pow2(n)
  {
    if n > 0 {
      Pow2Adds(m, n - 1);
      assert Pow2(m + n) == 2 * (Pow2(m) * Pow2(n - 1));
    }
  }

  /** Half of the last bracket is 4.99 / 2^61. */
  lemma LastHalfBracket()
    ensures Width(STEPS + 1) * 2305843009213693952.0 == 4.99
  {
    WidthIsHalvedEachStep(STEPS + 1);
    assert Pow2(5) == 32;
    Pow2Adds(5, 5);
    Pow2Adds(10, 10);
    Pow2Adds(20, 20);
    Pow2Adds(40, 20);
    assert Pow2(61) == 2 * Pow2(60);
  }
}
